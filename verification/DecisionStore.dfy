/**
  The decision transaction (internal/repository/postgres/investigation.go) over the
  tables investigations and investigation_steps, with the constraints that
  migrations/000001_init_schema.up.sql puts on them.

  Apply is one committed or rolled-back transaction as a function of the stored rows;
  InvestigationRepository performs it statement by statement.
*/
module DecisionStore {
  import opened Domain
  import opened Engine
  import opened StableSort

  datatype ActorType = Human | Agent
  datatype Actor = Actor(kind: ActorType, id: Option<string>)
  datatype EvidenceItem = EvidenceItem(kind: string, summary: string, data: Option<Json>)

  datatype DecisionInput = DecisionInput(
    edgeId: Uuid,
    actor: Actor,
    rationale: Option<string>,
    evidence: seq<EvidenceItem>,
    key: Option<string>)

  /** A row of investigation_steps. */
  datatype Step = Step(
    id: Uuid,
    investigationId: Uuid,
    versionId: Uuid,
    number: int,
    nodeId: Uuid,
    edgeId: Uuid,
    actor: Actor,
    rationale: Option<string>,
    evidence: Option<seq<EvidenceItem>>,
    key: Option<string>,
    at: Time)

  /** One call of ApplyDecision, with what it reads from clocks and id generators. */
  datatype Request = Request(investigationId: Uuid, input: DecisionInput, now: Time, dbNow: Time, stepId: Uuid)

  datatype DecisionResult = DecisionResult(investigation: Investigation, step: Step, replayed: bool)

  /** The stored rows; graphs are the nodes and edges of each version. */
  datatype Db = Db(graphs: map<Uuid, Graph>, investigations: map<Uuid, Investigation>, steps: seq<Step>)

  // ----- queries

  /** WHERE investigation_id = id, in insertion order. */
  function StepsOf(steps: seq<Step>, id: Uuid): seq<Step> {
    if steps == [] then []
    else
      var s := steps[|steps| - 1];
      StepsOf(steps[..|steps| - 1], id) + if s.investigationId == id then [s] else []
  }

  /** COALESCE(MAX(sequence_number), 0). */
  function MaxNumber(ss: seq<Step>): int {
    if ss == [] then 0
    else if |ss| == 1 then ss[0].number
    else
      var m := MaxNumber(ss[..|ss| - 1]);
      if ss[|ss| - 1].number > m then ss[|ss| - 1].number else m
  }

  function FindKey(ss: seq<Step>, key: string): Option<Step> {
    if ss == [] then None else if ss[0].key == Some(key) then Some(ss[0]) else FindKey(ss[1..], key)
  }

  /** encodeEvidence: no evidence and an empty list are stored alike, as NULL. */
  function EncodeEvidence(items: seq<EvidenceItem>): Option<seq<EvidenceItem>> {
    if |items| == 0 then None else Some(items)
  }

  /** The "equivalent" column of the idempotency query. */
  predicate Equivalent(s: Step, i: DecisionInput) {
    && s.edgeId == i.edgeId
    && s.actor.kind == i.actor.kind
    && s.actor.id == i.actor.id
    && s.rationale == i.rationale
    && s.evidence == EncodeEvidence(i.evidence)
  }

  // ----- statements, each checked against the constraints it can break

  function NewStep(ss: seq<Step>, inv: Investigation, edge: Edge, r: Request): Step {
    Step(r.stepId, inv.id, inv.versionId, MaxNumber(ss) + 1, inv.current, edge.id,
         r.input.actor, r.input.rationale, EncodeEvidence(r.input.evidence), r.input.key, r.dbNow)
  }

  predicate InVersion(db: Db, versionId: Uuid, nodeId: Uuid) {
    versionId in db.graphs && nodeId in NodeIds(db.graphs[versionId].nodes)
  }

  /** UNIQUE (investigation_id, sequence_number). */
  predicate NumberTaken(steps: seq<Step>, s: Step) {
    exists t :: t in steps && t.investigationId == s.investigationId && t.number == s.number
  }

  /** uq_investigation_steps_idempotency. */
  predicate KeyTaken(steps: seq<Step>, s: Step) {
    s.key.Some? && exists t :: t in steps && t.investigationId == s.investigationId && t.key == s.key
  }

  /** The composite foreign keys of a step row. */
  predicate StepReferencesHold(db: Db, s: Step) {
    && s.investigationId in db.investigations
    && db.investigations[s.investigationId].versionId == s.versionId
    && InVersion(db, s.versionId, s.nodeId)
    && s.edgeId in EdgeIds(db.graphs[s.versionId].edges)
  }

  function InsertStep(db: Db, s: Step): Result<Db> {
    if NumberTaken(db.steps, s) then Err(Conflict)
    else if KeyTaken(db.steps, s) then Err(IdempotencyKeyReused)
    else if !StepReferencesHold(db, s) then Err(Invalid)
    else Ok(db.(steps := db.steps + [s]))
  }

  /** chk_investigations_completion. */
  predicate CompletionCheck(inv: Investigation) {
    (inv.status == Done && inv.completedAt.Some? && inv.resolution.Some?) ||
    (inv.status == InProgress && inv.completedAt == None && inv.resolution == None)
  }

  function UpdateInvestigation(db: Db, next: Investigation): Result<Db> {
    if !CompletionCheck(next) || !InVersion(db, next.versionId, next.current) then Err(Invalid)
    else Ok(db.(investigations := db.investigations[next.id := next]))
  }

  // ----- the transaction

  /** The idempotency lookup: the recorded step, no step, or a key reused for something else. */
  function FindReplay(ss: seq<Step>, i: DecisionInput): Result<Option<Step>> {
    if i.key == None then Ok(None)
    else
      var s := FindKey(ss, i.key.value);
      if s == None then Ok(None)
      else if Equivalent(s.value, i) then Ok(s)
      else Err(IdempotencyKeyReused)
  }

  /** The graph an investigation is bound to; a version without rows has the empty graph. */
  function GraphOf(db: Db, versionId: Uuid): Graph {
    if versionId in db.graphs then db.graphs[versionId] else Graph(None, [], [])
  }

  /** Everything after the idempotency lookup. */
  function Advance(db: Db, inv: Investigation, r: Request): (Db, Result<DecisionResult>) {
    var g := GraphOf(db, inv.versionId);
    var moved := Submit(g, inv, Choice(r.input.edgeId, r.now));
    if moved.Err? then (db, Err(moved.error))
    else
      var step := NewStep(StepsOf(db.steps, inv.id), inv, LoadEdge(g, r.input.edgeId).value.0, r);
      var inserted := InsertStep(db, step);
      if inserted.Err? then (db, Err(inserted.error))
      else
        var updated := UpdateInvestigation(inserted.value, moved.value);
        if updated.Err? then (db, Err(updated.error))
        else (updated.value, Ok(DecisionResult(moved.value, step, false)))
  }

  /** ApplyDecision as one atomic step. */
  function Apply(db: Db, r: Request): (Db, Result<DecisionResult>) {
    if r.investigationId !in db.investigations then (db, Err(NotFound))
    else
      var inv := db.investigations[r.investigationId];
      var replay := FindReplay(StepsOf(db.steps, r.investigationId), r.input);
      if replay.Err? then (db, Err(replay.error))
      else if replay.value.Some? then (db, Ok(DecisionResult(inv, replay.value.value, true)))
      else Advance(db, inv, r)
  }

  // ----- the repository

  class InvestigationRepository {
    var graphs: map<Uuid, Graph>
    var investigations: map<Uuid, Investigation>
    var steps: seq<Step>

    function Contents(): Db
      reads this
    {
      Db(graphs, investigations, steps)
    }

    constructor (graphs: map<Uuid, Graph>)
      ensures Contents() == Db(graphs, map[], [])
    {
      this.graphs, investigations, steps := graphs, map[], [];
    }

    /** Insert the row of an investigation that Start computed; the database picks the id. */
    method Create(inv: Investigation, id: Uuid) returns (r: Result<Investigation>)
      requires id !in investigations
      modifies this`investigations
      ensures r.Ok? <==> CompletionCheck(inv) && InVersion(old(Contents()), inv.versionId, inv.current)
      ensures r.Ok? ==> r.value == inv.(id := id)
      ensures Contents() == if r.Ok? then old(Contents()).(investigations := old(investigations)[id := r.value]) else old(Contents())
    {
      if !CompletionCheck(inv) || !InVersion(Contents(), inv.versionId, inv.current) {
        return Err(Invalid);
      }
      investigations := investigations[id := inv.(id := id)];
      return Ok(inv.(id := id));
    }

    /** SELECT ... FOR UPDATE. */
    method LockInvestigation(id: Uuid) returns (r: Result<Investigation>)
      ensures r == if id in investigations then Ok(investigations[id]) else Err(NotFound)
    {
      if id !in investigations {
        return Err(NotFound);
      }
      return Ok(investigations[id]);
    }

    method FindStepByIdempotencyKey(id: Uuid, i: DecisionInput) returns (r: Result<Option<Step>>)
      requires i.key.Some?
      ensures r == FindReplay(StepsOf(steps, id), i)
    {
      var found := FindKey(StepsOf(steps, id), i.key.value);
      if found == None {
        return Ok(None);
      }
      if !Equivalent(found.value, i) {
        return Err(IdempotencyKeyReused);
      }
      return Ok(found);
    }

    method RecordStep(inv: Investigation, edge: Edge, req: Request) returns (r: Result<Step>)
      modifies this`steps
      ensures var row := NewStep(StepsOf(old(steps), inv.id), inv, edge, req);
        var inserted := InsertStep(old(Contents()), row);
        && r == (if inserted.Ok? then Ok(row) else Err(inserted.error))
        && Contents() == (if inserted.Ok? then inserted.value else old(Contents()))
    {
      var row := NewStep(StepsOf(steps, inv.id), inv, edge, req);
      var inserted := InsertStep(Contents(), row);
      if inserted.Err? {
        return Err(inserted.error);
      }
      steps := steps + [row];
      return Ok(row);
    }

    method UpdateInvestigationState(next: Investigation) returns (r: Result<Investigation>)
      modifies this`investigations
      ensures var updated := UpdateInvestigation(old(Contents()), next);
        && r == (if updated.Ok? then Ok(next) else Err(updated.error))
        && Contents() == (if updated.Ok? then updated.value else old(Contents()))
    {
      var updated := UpdateInvestigation(Contents(), next);
      if updated.Err? {
        return Err(updated.error);
      }
      investigations := investigations[next.id := next];
      return Ok(next);
    }

    /** One transaction: on an error every row it wrote is rolled back. */
    method ApplyDecision(req: Request) returns (r: Result<DecisionResult>)
      modifies this`steps, this`investigations
      ensures (Contents(), r) == Apply(old(Contents()), req)
    {
      var saved := steps;
      var locked := LockInvestigation(req.investigationId);
      if locked.Err? {
        return Err(locked.error);
      }
      var inv := locked.value;
      if req.input.key.Some? {
        var existing := FindStepByIdempotencyKey(req.investigationId, req.input);
        if existing.Err? {
          return Err(existing.error);
        }
        if existing.value.Some? {
          return Ok(DecisionResult(inv, existing.value.value, true));
        }
      }
      if inv.status == Done {
        return Err(InvestigationCompleted);
      }
      var loaded := LoadEdge(GraphOf(Contents(), inv.versionId), req.input.edgeId);
      if loaded == None {
        return Err(InvalidTransition);
      }
      var decided := Decide(inv, loaded.value.0, loaded.value.1, req.now);
      if decided.Err? {
        return Err(decided.error);
      }
      var step := RecordStep(inv, loaded.value.0, req);
      if step.Err? {
        return Err(step.error);
      }
      var updated := UpdateInvestigationState(decided.value);
      if updated.Err? {
        steps := saved;
        return Err(updated.error);
      }
      return Ok(DecisionResult(updated.value, step.value, false));
    }

    /** Both reads of GetWithSteps, from one snapshot. */
    method GetWithSteps(id: Uuid) returns (r: Result<(Investigation, seq<Step>)>)
      ensures r == ReadWithSteps(Contents(), id)
    {
      if id !in investigations {
        return Err(NotFound);
      }
      return Ok((investigations[id], Sort(ByNumber, StepsOf(steps, id))));
    }
  }

  predicate ByNumber(a: Step, b: Step) { a.number <= b.number }

  /** GetWithSteps: the row and its steps ORDER BY sequence_number. */
  function ReadWithSteps(db: Db, id: Uuid): Result<(Investigation, seq<Step>)> {
    if id !in db.investigations then Err(NotFound)
    else Ok((db.investigations[id], Sort(ByNumber, StepsOf(db.steps, id))))
  }
}
