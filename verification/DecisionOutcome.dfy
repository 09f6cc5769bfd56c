/**
  Which answer a decision request gets, read off the stored rows: the table of outcomes
  of ApplyDecision, and what the constraints on its two tables mean.
*/
module DecisionOutcome {
  import opened Domain
  import opened PublishRules
  import opened Engine
  import opened DecisionStore
  import opened DecisionHistory

  // ----- the conditions

  /** Step s was recorded for this investigation under the request's key. */
  predicate UnderKey(s: Step, r: Request) {
    s.investigationId == r.investigationId && r.input.key.Some? && s.key == r.input.key
  }

  predicate KeyRecorded(db: Db, r: Request) {
    exists s :: s in db.steps && UnderKey(s, r)
  }

  /** The investigation's version has an edge with the requested id that leaves its current node. */
  predicate CanLeave(db: Db, r: Request)
    requires r.investigationId in db.investigations
  {
    var inv := db.investigations[r.investigationId];
    inv.versionId in db.graphs &&
    exists e :: e in db.graphs[inv.versionId].edges && e.id == r.input.edgeId && e.from == inv.current
  }

  /** Nothing is recorded under the key, and the investigation stands with this status. */
  predicate Undecided(db: Db, r: Request, status: Status) {
    r.investigationId in db.investigations && !KeyRecorded(db, r) && db.investigations[r.investigationId].status == status
  }

  // ----- which answer

  lemma KeyFound(db: Db, r: Request, s: Step)
    requires Sound(db) && s in db.steps && UnderKey(s, r)
    ensures r.investigationId in db.investigations
    ensures Apply(db, r) == (db, if Asks(s, r.input) then Ok(DecisionResult(db.investigations[r.investigationId], s, true))
      else Err(IdempotencyKeyReused))
  {
    var id := r.investigationId;
    assert SoundAt(db, id);
    StepsOfAre(db.steps, id);
    FindKeyFinds(StepsOf(db.steps, id), r.input.key.value);
    EquivalentAsks(s, r.input);
  }

  lemma KeyNotFound(db: Db, r: Request)
    requires Sound(db) && r.investigationId in db.investigations && !KeyRecorded(db, r)
    ensures FindReplay(StepsOf(db.steps, r.investigationId), r.input) == Ok(None)
  {
    var ss := StepsOf(db.steps, r.investigationId);
    StepsOfAre(db.steps, r.investigationId);
    if r.input.key.Some? {
      FindKeyFinds(ss, r.input.key.value);
      var s := FindKey(ss, r.input.key.value);
      if s.Some? { assert UnderKey(s.value, r); }
    }
  }

  /** The transition rule's two rejections, and when it accepts. */
  lemma SubmitTable(g: Graph, inv: Investigation, c: Choice)
    requires Playable(g) && Standing(g, inv)
    ensures var out := Submit(g, inv, c);
      && (out == Err(InvestigationCompleted) <==> inv.status == Done)
      && (out == Err(InvalidTransition) <==> inv.status == InProgress && !exists e :: e in g.edges && e.id == c.edgeId && e.from == inv.current)
      && (out.Err? ==> out.error == InvestigationCompleted || out.error == InvalidTransition)
  {
    EdgeByIdFinds(g.edges, c.edgeId);
    var e := EdgeById(g.edges, c.edgeId);
    if e.Some? {
      assert Resolves(NodeIds(g.nodes), e.value);
      NodeByIdFinds(g.nodes, e.value.to);
    }
  }

  lemma FreshTable(db: Db, r: Request)
    requires Sound(db) && r.investigationId in db.investigations && !KeyRecorded(db, r)
    ensures var out, inv := Apply(db, r).1, db.investigations[r.investigationId];
      && (out == Err(InvestigationCompleted) <==> inv.status == Done)
      && (out == Err(InvalidTransition) <==> inv.status == InProgress && !CanLeave(db, r))
      && (out.Err? ==> out.error == InvestigationCompleted || out.error == InvalidTransition)
      && (out.Ok? ==> !out.value.replayed)
  {
    var id := r.investigationId;
    var inv, g := db.investigations[id], GraphFor(db, id);
    assert SoundAt(db, id) && Playable(GraphOf(db, inv.versionId));
    KeyNotFound(db, r);
    SubmitTable(g, inv, Choice(r.input.edgeId, r.now));
    if Submit(g, inv, Choice(r.input.edgeId, r.now)).Ok? { AdvanceWrites(db, r); }
  }

  /**
    The answer to a request on sound rows. Not found: no such investigation. Replayed, or
    key reused: a step is recorded under the key, for just this request or for another
    one. Completed, or invalid transition: neither, and the investigation is done, or no
    edge of its version with the requested id leaves its current node. Else accepted.
  */
  lemma DecisionTable(db: Db, r: Request)
    requires Sound(db)
    ensures var out := Apply(db, r).1;
      && (out == Err(NotFound) <==> r.investigationId !in db.investigations)
      && (out == Err(IdempotencyKeyReused) <==> exists s :: s in db.steps && UnderKey(s, r) && !Asks(s, r.input))
      && (out == Err(InvestigationCompleted) <==> Undecided(db, r, Done))
      && (out == Err(InvalidTransition) <==> Undecided(db, r, InProgress) && !CanLeave(db, r))
      && (out.Ok? && !out.value.replayed <==> Undecided(db, r, InProgress) && CanLeave(db, r))
      && (out.Ok? && out.value.replayed <==> exists s :: s in db.steps && UnderKey(s, r) && Asks(s, r.input))
  {
    if r.investigationId in db.investigations {
      if s :| s in db.steps && UnderKey(s, r) {
        KeyFound(db, r, s);
        forall t | t in db.steps && UnderKey(t, r) ensures Asks(t, r.input) <==> Asks(s, r.input) { KeyFound(db, r, t); }
      } else {
        FreshTable(db, r);
      }
    } else {
      forall s | s in db.steps ensures !UnderKey(s, r) {}
    }
  }

  // ----- what is written

  /** The row after moving to node n at time now: it completes exactly on a terminal node. */
  predicate MovedTo(inv: Investigation, next: Investigation, n: Node, now: Time) {
    && next.id == inv.id && next.alertId == inv.alertId && next.versionId == inv.versionId && next.startedAt == inv.startedAt
    && next.current == n.id
    && (if n.kind == Terminal
        then next.status == Done && next.completedAt == Some(now) && next.resolution == n.resolution
        else next.status == InProgress && next.completedAt == None && next.resolution == None)
  }

  /** Edge e, with the requested id, leads on to node n of the investigation's version. */
  predicate LeadsTo(db: Db, r: Request, e: Edge, n: Node)
    requires r.investigationId in db.investigations
  {
    var inv := db.investigations[r.investigationId];
    && inv.versionId in db.graphs
    && e in db.graphs[inv.versionId].edges && e.id == r.input.edgeId && e.from == inv.current
    && n in db.graphs[inv.versionId].nodes && n.id == e.to
  }

  /** An accepted decision moves the row along its edge and appends one step that holds all of the request. */
  lemma AcceptedWrites(db: Db, r: Request, e: Edge, n: Node)
    requires Sound(db) && Undecided(db, r, InProgress) && LeadsTo(db, r, e, n)
    ensures var inv, (db', out) := db.investigations[r.investigationId], Apply(db, r);
      && out.Ok? && MovedTo(inv, out.value.investigation, n, r.now)
      && out.value.step == Step(r.stepId, r.investigationId, inv.versionId, |StepsOf(db.steps, r.investigationId)| + 1, e.from, e.id,
           r.input.actor, r.input.rationale, if r.input.evidence == [] then None else Some(r.input.evidence), r.input.key, r.dbNow)
      && db' == Db(db.graphs, db.investigations[r.investigationId := out.value.investigation], db.steps + [out.value.step])
  {
    var id := r.investigationId;
    var inv, g, c := db.investigations[id], GraphFor(db, id), Choice(r.input.edgeId, r.now);
    DecisionTable(db, r);
    assert CanLeave(db, r);
    ApplyEffect(db, r);
    KeyNotFound(db, r);
    assert SoundAt(db, id) && Playable(GraphOf(db, inv.versionId));
    EdgeByIdFinds(g.edges, e.id);
    NodeByIdFinds(g.nodes, n.id);
    SubmitOk(g, inv, c, e, n);
    AdvanceWrites(db, r);
  }

  lemma SubmitOk(g: Graph, inv: Investigation, c: Choice, e: Edge, n: Node)
    requires Standing(g, inv) && inv.status == InProgress && e.from == inv.current
    requires EdgeById(g.edges, c.edgeId) == Some(e) && NodeById(g.nodes, e.to) == Some(n) && n.id == e.to
    ensures Submit(g, inv, c).Ok? && MovedTo(inv, Submit(g, inv, c).value, n, c.at)
  {
  }

  /** Every edge that leaves the current node leads to a node. */
  lemma SomewhereToGo(db: Db, r: Request)
    requires Sound(db) && r.investigationId in db.investigations && CanLeave(db, r)
    ensures exists e, n :: LeadsTo(db, r, e, n)
  {
    var inv := db.investigations[r.investigationId];
    var g := db.graphs[inv.versionId];
    assert Playable(GraphOf(db, inv.versionId));
    var e :| e in g.edges && e.id == r.input.edgeId && e.from == inv.current;
    assert Resolves(NodeIds(g.nodes), e);
    var n :| n in g.nodes && n.id == e.to;
    assert LeadsTo(db, r, e, n);
  }

  // ----- the constraints

  /** What UNIQUE and the foreign keys demand of investigation_steps. */
  ghost predicate StepsConstrained(db: Db) {
    && (forall i, j :: 0 <= i < j < |db.steps| && db.steps[i].investigationId == db.steps[j].investigationId ==>
          db.steps[i].number != db.steps[j].number && (db.steps[i].key.Some? ==> db.steps[i].key != db.steps[j].key))
    && (forall s :: s in db.steps ==> ReferencesHold(db, s))
  }

  /** The investigation is there, on the step's version, and that version has the step's node and edge. */
  predicate ReferencesHold(db: Db, s: Step) {
    && s.investigationId in db.investigations && db.investigations[s.investigationId].versionId == s.versionId
    && s.versionId in db.graphs
    && (exists n :: n in db.graphs[s.versionId].nodes && n.id == s.nodeId)
    && (exists e :: e in db.graphs[s.versionId].edges && e.id == s.edgeId)
  }

  /** A step is refused exactly if it would break a constraint. */
  lemma InsertExact(db: Db, s: Step)
    requires StepsConstrained(db)
    ensures InsertStep(db, s).Ok? <==> StepsConstrained(db.(steps := db.steps + [s]))
    ensures InsertStep(db, s).Ok? ==> InsertStep(db, s).value == db.(steps := db.steps + [s])
  {
    var db' := db.(steps := db.steps + [s]);
    assert StepReferencesHold(db, s) <==> ReferencesHold(db', s);
    if InsertStep(db, s).Ok? {
      forall t | t in db'.steps ensures ReferencesHold(db', t) {
        if t in db.steps { assert ReferencesHold(db, t); }
      }
      forall i | 0 <= i < |db.steps| ensures db.steps[i] in db.steps {}
    }
    if StepsConstrained(db') {
      NothingTaken(db, s);
      assert s in db'.steps;
    }
  }

  lemma NothingTaken(db: Db, s: Step)
    requires StepsConstrained(db.(steps := db.steps + [s]))
    ensures !NumberTaken(db.steps, s) && !KeyTaken(db.steps, s)
  {
    var all := db.steps + [s];
    forall t | t in db.steps && t.investigationId == s.investigationId
      ensures t.number != s.number && (s.key.Some? ==> t.key != s.key)
    {
      var i :| 0 <= i < |db.steps| && db.steps[i] == t;
      assert all[i] == t && all[|db.steps|] == s;
    }
  }

  /** Which error a refused step gives: a taken number, else a taken key, else a missing row. */
  lemma InsertErrors(db: Db, s: Step)
    ensures InsertStep(db, s) == Err(Conflict) <==> exists t :: t in db.steps && t.investigationId == s.investigationId && t.number == s.number
    ensures InsertStep(db, s) == Err(IdempotencyKeyReused) ==> s.key.Some? && exists t :: t in db.steps && t.investigationId == s.investigationId && t.key == s.key
    ensures InsertStep(db, s) == Err(Invalid) ==> !ReferencesHold(db, s)
    ensures InsertStep(db, s).Err? ==> InsertStep(db, s).error in {Conflict, IdempotencyKeyReused, Invalid}
    ensures InsertStep(db, s).Ok? ==> ReferencesHold(db, s)
  {
  }

  /** The CHECK on investigations: a completion time and a resolution exactly when completed. */
  lemma CompletionMeans(inv: Investigation)
    ensures CompletionCheck(inv) <==> ((inv.status == Done) == inv.completedAt.Some?) && ((inv.status == Done) == inv.resolution.Some?)
  {
  }

  /** Replacing a row is refused exactly if the new one would break the CHECK or name a node its version has not. */
  lemma UpdateExact(db: Db, next: Investigation)
    ensures UpdateInvestigation(db, next).Ok? <==>
      && ((next.status == Done) == next.completedAt.Some?) && ((next.status == Done) == next.resolution.Some?)
      && next.versionId in db.graphs && exists n :: n in db.graphs[next.versionId].nodes && n.id == next.current
    ensures UpdateInvestigation(db, next).Ok? ==>
      UpdateInvestigation(db, next).value == db.(investigations := db.investigations[next.id := next])
  {
    CompletionMeans(next);
  }

  /** Sound rows satisfy the constraints. */
  lemma SoundIsConstrained(db: Db)
    requires Sound(db)
    ensures StepsConstrained(db)
  {
    forall i, j | 0 <= i < j < |db.steps| && db.steps[i].investigationId == db.steps[j].investigationId
      ensures db.steps[i].number != db.steps[j].number && (db.steps[i].key.Some? ==> db.steps[i].key != db.steps[j].key)
    {
      var id := db.steps[i].investigationId;
      assert db.steps[i] in db.steps && SoundAt(db, id);
      var a, b := PlacesOf(db.steps, id, i, j);
      StepNumbers(GraphFor(db, id), db.investigations[id], StepsOf(db.steps, id));
    }
    forall s | s in db.steps ensures ReferencesHold(db, s) { StepRefers(db, s); }
  }

  lemma StepRefers(db: Db, s: Step)
    requires Sound(db) && s in db.steps
    ensures ReferencesHold(db, s)
  {
    var id := s.investigationId;
    assert SoundAt(db, id);
    var inv, g, ss := db.investigations[id], GraphFor(db, id), StepsOf(db.steps, id);
    StepsOfAre(db.steps, id);
    var k :| 0 <= k < |ss| && ss[k] == s;
    assert StepFits(g, inv, ss, k);
    EdgeByIdFinds(g.edges, s.edgeId);
    var e := EdgeById(g.edges, s.edgeId).value;
    assert StepEdges(g, ss)[k] == e && Resolves(NodeIds(g.nodes), e);
    var n :| n in g.nodes && n.id == s.nodeId;
  }

  /** Two steps of one investigation, where they stand among its steps. */
  lemma {:induction false} PlacesOf(steps: seq<Step>, id: Uuid, i: nat, j: nat) returns (a: nat, b: nat)
    requires i < j < |steps| && steps[i].investigationId == id && steps[j].investigationId == id
    ensures a < b < |StepsOf(steps, id)| && StepsOf(steps, id)[a] == steps[i] && StepsOf(steps, id)[b] == steps[j]
  {
    var rest := steps[..|steps| - 1];
    if j < |rest| {
      a, b := PlacesOf(rest, id, i, j);
    } else {
      a := PlaceOf(rest, id, i);
      b := |StepsOf(rest, id)|;
    }
  }

  lemma {:induction false} PlaceOf(steps: seq<Step>, id: Uuid, i: nat) returns (a: nat)
    requires i < |steps| && steps[i].investigationId == id
    ensures a < |StepsOf(steps, id)| && StepsOf(steps, id)[a] == steps[i]
  {
    var rest := steps[..|steps| - 1];
    if i < |rest| { a := PlaceOf(rest, id, i); } else { a := |StepsOf(rest, id)|; }
  }
}
