/**
  What every history of decisions keeps: the step log and the projected row agree, the
  log only grows, retries are recognised for ever, and nothing is decided twice.
*/
module DecisionHistory {
  import opened Domain
  import opened StableSort
  import opened Engine
  import opened DecisionStore

  // ----- the invariant

  /** The edges that a step list selects. */
  function StepEdges(g: Graph, ss: seq<Step>): seq<Edge>
    requires forall i :: 0 <= i < |ss| ==> EdgeById(g.edges, ss[i].edgeId).Some?
  {
    seq(|ss|, i requires 0 <= i < |ss| => EdgeById(g.edges, ss[i].edgeId).value)
  }

  ghost predicate EdgesKnown(g: Graph, ss: seq<Step>) {
    forall i :: 0 <= i < |ss| ==> EdgeById(g.edges, ss[i].edgeId).Some?
  }

  /** Step i of an investigation: numbered i + 1, of its version, recorded at the node its edge leaves. */
  ghost predicate StepFits(g: Graph, inv: Investigation, ss: seq<Step>, i: nat)
    requires i < |ss| && EdgesKnown(g, ss)
  {
    && ss[i].number == i + 1
    && ss[i].investigationId == inv.id
    && ss[i].versionId == inv.versionId
    && ss[i].nodeId == EdgeById(g.edges, ss[i].edgeId).value.from
  }

  ghost predicate KeysDistinct(ss: seq<Step>) {
    forall i, j :: 0 <= i < j < |ss| && ss[i].key.Some? ==> ss[i].key != ss[j].key
  }

  /**
    The step list is the authoritative history: numbered 1..n, it is a route from the
    root, and replaying it leads to the node, status and resolution of the row.
  */
  ghost predicate History(g: Graph, inv: Investigation, ss: seq<Step>) {
    && Standing(g, inv)
    && EdgesKnown(g, ss)
    && (forall i :: 0 <= i < |ss| ==> StepFits(g, inv, ss, i))
    && IsRoute(g, RootOf(g), StepEdges(g, ss))
    && inv.current == RouteNode(RootOf(g), StepEdges(g, ss), |ss|)
    && KeysDistinct(ss)
  }

  function RootOf(g: Graph): Uuid {
    if g.root.Some? then g.root.value else NIL
  }

  /** The graph an investigation runs on. */
  function GraphFor(db: Db, id: Uuid): Graph
    requires id in db.investigations
  {
    GraphOf(db, db.investigations[id].versionId)
  }

  ghost predicate SoundAt(db: Db, id: Uuid)
    requires id in db.investigations
  {
    var inv := db.investigations[id];
    && inv.id == id
    && inv.versionId in db.graphs
    && History(GraphFor(db, id), inv, StepsOf(db.steps, id))
  }

  ghost predicate GraphsPlayable(db: Db) {
    forall v {:trigger Playable(GraphOf(db, v))} :: v in db.graphs ==> Playable(GraphOf(db, v))
  }

  ghost predicate Sound(db: Db) {
    && GraphsPlayable(db)
    && (forall id {:trigger SoundAt(db, id)} :: id in db.investigations ==> SoundAt(db, id))
    && (forall s :: s in db.steps ==> s.investigationId in db.investigations)
  }

  // ----- the step table

  lemma {:induction false} StepsOfAre(steps: seq<Step>, id: Uuid)
    ensures forall s :: s in StepsOf(steps, id) <==> s in steps && s.investigationId == id
  {
    if steps != [] {
      StepsOfAre(steps[..|steps| - 1], id);
      assert steps == steps[..|steps| - 1] + [steps[|steps| - 1]];
    }
  }

  lemma StepsOfGrows(steps: seq<Step>, s: Step, id: Uuid)
    ensures StepsOf(steps + [s], id) == if s.investigationId == id then StepsOf(steps, id) + [s] else StepsOf(steps, id)
  {
    assert (steps + [s])[..|steps|] == steps;
  }

  lemma {:induction false} MaxNumberIs(ss: seq<Step>)
    requires forall i :: 0 <= i < |ss| ==> ss[i].number == i + 1
    ensures MaxNumber(ss) == |ss|
  {
    if |ss| > 1 { MaxNumberIs(ss[..|ss| - 1]); }
  }

  lemma {:induction false} FindKeyFinds(ss: seq<Step>, key: string)
    ensures FindKey(ss, key).Some? ==> FindKey(ss, key).value in ss && FindKey(ss, key).value.key == Some(key)
    ensures FindKey(ss, key) == None ==> forall s :: s in ss ==> s.key != Some(key)
    ensures KeysDistinct(ss) ==> forall s :: s in ss && s.key == Some(key) ==> FindKey(ss, key) == Some(s)
  {
    if ss != [] {
      FindKeyFinds(ss[1..], key);
      assert ss == [ss[0]] + ss[1..];
    }
  }

  // ----- one transaction

  /** A recorded decision extends the history by one step. */
  lemma HistoryGrows(g: Graph, inv: Investigation, ss: seq<Step>, next: Investigation, s: Step, c: Choice)
    requires History(g, inv, ss) && Submit(g, inv, c) == Ok(next)
    requires s.number == |ss| + 1 && s.investigationId == inv.id && s.versionId == inv.versionId
    requires s.nodeId == inv.current && s.edgeId == c.edgeId && Resolves(NodeIds(g.nodes), EdgeById(g.edges, c.edgeId).value)
    requires s.key.Some? ==> forall t :: t in ss ==> t.key != s.key
    ensures History(g, next, ss + [s])
  {
    SubmitMoves(g, inv, c);
    SubmitStands(g, inv, c);
    var e := EdgeById(g.edges, c.edgeId).value;
    assert EdgesKnown(g, ss + [s]);
    assert StepEdges(g, ss + [s]) == StepEdges(g, ss) + [e];
    RouteGrows(g, RootOf(g), StepEdges(g, ss), e);
    forall i | 0 <= i < |ss + [s]| ensures StepFits(g, next, ss + [s], i) {
      assert i < |ss| ==> StepFits(g, inv, ss, i);
    }
  }

  lemma StepNumbers(g: Graph, inv: Investigation, ss: seq<Step>)
    requires History(g, inv, ss)
    ensures MaxNumber(ss) == |ss|
    ensures forall i :: 0 <= i < |ss| ==> ss[i].number == i + 1 && ss[i].nodeId == EdgeById(g.edges, ss[i].edgeId).value.from
    ensures forall s :: s in ss ==> 1 <= s.number <= |ss|
  {
    forall i | 0 <= i < |ss| ensures ss[i].number == i + 1 && ss[i].nodeId == EdgeById(g.edges, ss[i].edgeId).value.from {
      assert StepFits(g, inv, ss, i);
    }
    MaxNumberIs(ss);
  }

  /** The row that RecordStep writes for request r. */
  function RowFor(db: Db, inv: Investigation, r: Request): Step {
    NewStep(StepsOf(db.steps, inv.id), inv, Edge(r.input.edgeId, NIL, NIL, "", None, 0), r)
  }

  /** None of the constraints on a new step can be violated. */
  lemma InsertSucceeds(db: Db, r: Request)
    requires Sound(db) && r.investigationId in db.investigations
    requires FindReplay(StepsOf(db.steps, r.investigationId), r.input) == Ok(None)
    requires EdgeById(GraphFor(db, r.investigationId).edges, r.input.edgeId).Some?
    ensures var inv, ss := db.investigations[r.investigationId], StepsOf(db.steps, r.investigationId);
      var s := RowFor(db, inv, r);
      && s.number == |ss| + 1
      && !NumberTaken(db.steps, s) && !KeyTaken(db.steps, s) && StepReferencesHold(db, s)
      && (s.key.Some? ==> forall t :: t in ss ==> t.key != s.key)
  {
    var id := r.investigationId;
    var inv, g, ss := db.investigations[id], GraphFor(db, id), StepsOf(db.steps, id);
    assert SoundAt(db, id);
    StepNumbers(g, inv, ss);
    StepsOfAre(db.steps, id);
    EdgeByIdFinds(g.edges, r.input.edgeId);
    if r.input.key.Some? { FindKeyFinds(ss, r.input.key.value); }
  }

  /** What the transition rule returns satisfies the constraints on an investigation row. */
  lemma MovedFits(db: Db, id: Uuid, c: Choice)
    requires Sound(db) && id in db.investigations && Submit(GraphFor(db, id), db.investigations[id], c).Ok?
    ensures var inv, g := db.investigations[id], GraphFor(db, id);
      var moved := Submit(g, inv, c).value;
      && CompletionCheck(moved) && InVersion(db, moved.versionId, moved.current)
      && moved.id == inv.id == id && moved.versionId == inv.versionId
      && EdgeById(g.edges, c.edgeId).Some? && Resolves(NodeIds(g.nodes), EdgeById(g.edges, c.edgeId).value)
  {
    var inv, g := db.investigations[id], GraphFor(db, id);
    assert SoundAt(db, id);
    assert Playable(GraphOf(db, inv.versionId));
    SubmitMoves(g, inv, c);
    SubmitStands(g, inv, c);
    var moved := Submit(g, inv, c).value;
    if moved.status == Done { DoneHasOutcome(g, moved); }
  }

  /** With no constraint in the way, both statements run. */
  lemma AdvanceUnfolds(db: Db, inv: Investigation, r: Request, moved: Investigation)
    requires Submit(GraphOf(db, inv.versionId), inv, Choice(r.input.edgeId, r.now)) == Ok(moved)
    requires CompletionCheck(moved) && InVersion(db, moved.versionId, moved.current)
    requires var s := RowFor(db, inv, r); !NumberTaken(db.steps, s) && !KeyTaken(db.steps, s) && StepReferencesHold(db, s)
    ensures Advance(db, inv, r) ==
      (Db(db.graphs, db.investigations[moved.id := moved], db.steps + [RowFor(db, inv, r)]), Ok(DecisionResult(moved, RowFor(db, inv, r), false)))
  {
    var g := GraphOf(db, inv.versionId);
    EdgeByIdFinds(g.edges, r.input.edgeId);
    assert NewStep(StepsOf(db.steps, inv.id), inv, LoadEdge(g, r.input.edgeId).value.0, r) == RowFor(db, inv, r);
  }

  /** An accepted request: one step appended, one row replaced. */
  lemma AdvanceWrites(db: Db, r: Request)
    requires Sound(db) && r.investigationId in db.investigations
    requires FindReplay(StepsOf(db.steps, r.investigationId), r.input) == Ok(None)
    requires Submit(GraphFor(db, r.investigationId), db.investigations[r.investigationId], Choice(r.input.edgeId, r.now)).Ok?
    ensures var inv := db.investigations[r.investigationId];
      var moved := Submit(GraphFor(db, r.investigationId), inv, Choice(r.input.edgeId, r.now)).value;
      var s := RowFor(db, inv, r);
      && s.number == |StepsOf(db.steps, inv.id)| + 1 && inv.id == r.investigationId
      && Apply(db, r) == (Db(db.graphs, db.investigations[inv.id := moved], db.steps + [s]), Ok(DecisionResult(moved, s, false)))
      && History(GraphFor(db, r.investigationId), moved, StepsOf(db.steps, inv.id) + [s])
      && SameRun(inv, moved)
  {
    var id := r.investigationId;
    var inv, g := db.investigations[id], GraphFor(db, id);
    var c := Choice(r.input.edgeId, r.now);
    assert SoundAt(db, id);
    MovedFits(db, id, c);
    InsertSucceeds(db, r);
    var moved, s := Submit(g, inv, c).value, RowFor(db, inv, r);
    AdvanceUnfolds(db, inv, r, moved);
    HistoryGrows(g, inv, StepsOf(db.steps, id), moved, s, c);
  }

  /** What is stored of an evidence list: all of it, or NULL when it is empty. */
  function StoredEvidence(items: seq<EvidenceItem>): Option<seq<EvidenceItem>> {
    if items == [] then None else Some(items)
  }

  /** Step s records just what the input asks for. */
  predicate Asks(s: Step, i: DecisionInput) {
    && s.edgeId == i.edgeId && s.actor == i.actor && s.rationale == i.rationale
    && s.evidence == StoredEvidence(i.evidence)
  }

  lemma EquivalentAsks(s: Step, i: DecisionInput)
    ensures Equivalent(s, i) <==> Asks(s, i)
  {
  }

  /** What a transaction does to the rows, by its answer. */
  ghost predicate Effect(db: Db, r: Request, db': Db, out: Result<DecisionResult>) {
    var id := r.investigationId;
    && (out.Err? ==> db' == db && out.error in {NotFound, IdempotencyKeyReused, InvestigationCompleted, InvalidTransition})
    && (out.Ok? && out.value.replayed ==>
          && db' == db && id in db.investigations && out.value.investigation == db.investigations[id]
          && out.value.step in StepsOf(db.steps, id)
          && out.value.step.key == r.input.key && Asks(out.value.step, r.input))
    && (out.Ok? && !out.value.replayed ==>
          && db' == Db(db.graphs, db.investigations[id := out.value.investigation], db.steps + [out.value.step])
          && id in db.investigations && SameRun(db.investigations[id], out.value.investigation)
          && out.value.step == Step(r.stepId, id, db.investigations[id].versionId, |StepsOf(db.steps, id)| + 1,
               db.investigations[id].current, r.input.edgeId, r.input.actor, r.input.rationale,
               StoredEvidence(r.input.evidence), r.input.key, r.dbNow))
  }

  /** The same investigation, further on: what was fixed when it started has not changed. */
  predicate SameRun(inv: Investigation, next: Investigation) {
    && next.id == inv.id && next.alertId == inv.alertId
    && next.versionId == inv.versionId && next.startedAt == inv.startedAt
  }

  lemma ApplyEffect(db: Db, r: Request)
    requires Sound(db)
    ensures Effect(db, r, Apply(db, r).0, Apply(db, r).1)
  {
    var id := r.investigationId;
    if id in db.investigations {
      var ss := StepsOf(db.steps, id);
      if r.input.key.Some? { FindKeyFinds(ss, r.input.key.value); }
      if FindReplay(ss, r.input) == Ok(None) {
        RejectionCodes(db, id, Choice(r.input.edgeId, r.now));
        if Submit(GraphFor(db, id), db.investigations[id], Choice(r.input.edgeId, r.now)).Ok? {
          AdvanceWrites(db, r);
        }
      }
    }
  }

  /** The defensive error of Decide is unreachable: the destination is loaded through the edge. */
  lemma RejectionCodes(db: Db, id: Uuid, c: Choice)
    requires Sound(db) && id in db.investigations
    ensures var out := Submit(GraphFor(db, id), db.investigations[id], c);
      out.Err? ==> out.error == InvestigationCompleted || out.error == InvalidTransition
  {
    var g := GraphFor(db, id);
    var e := EdgeById(g.edges, c.edgeId);
    if e.Some? { NodeByIdFinds(g.nodes, e.value.to); }
  }

  /** An investigation is as sound as its own row, steps and graph. */
  lemma SoundAtFrame(db: Db, db': Db, id: Uuid)
    requires id in db.investigations && SoundAt(db, id) && db'.graphs == db.graphs
    requires id in db'.investigations && db'.investigations[id] == db.investigations[id]
    requires StepsOf(db'.steps, id) == StepsOf(db.steps, id)
    ensures SoundAt(db', id)
  {
  }

  lemma GraphsFrame(db: Db, db': Db)
    requires GraphsPlayable(db) && db'.graphs == db.graphs
    ensures GraphsPlayable(db')
  {
    forall v | v in db'.graphs ensures Playable(GraphOf(db', v)) {
      assert Playable(GraphOf(db, v)) && GraphOf(db', v) == GraphOf(db, v);
    }
  }

  lemma ApplyKeeps(db: Db, r: Request)
    requires Sound(db)
    ensures Sound(Apply(db, r).0)
  {
    ApplyEffect(db, r);
    var id := r.investigationId;
    var (db', out) := Apply(db, r);
    if out.Ok? && !out.value.replayed {
      AdvanceWrites(db, r);
      GraphsFrame(db, db');
      forall x | x in db'.investigations ensures SoundAt(db', x) {
        StepsOfGrows(db.steps, out.value.step, x);
        if x != id {
          assert SoundAt(db, x);
          SoundAtFrame(db, db', x);
        }
      }
    }
  }

  // ----- histories

  /** The rows after a list of requests, each run as one transaction. */
  function Exec(db: Db, rs: seq<Request>): Db
    decreases |rs|
  {
    if rs == [] then db else Exec(Apply(db, rs[0]).0, rs[1..])
  }

  /** The answers to a list of requests. */
  function Answers(db: Db, rs: seq<Request>): seq<Result<DecisionResult>>
    decreases |rs|
  {
    if rs == [] then [] else [Apply(db, rs[0]).1] + Answers(Apply(db, rs[0]).0, rs[1..])
  }

  /** The step log of every investigation only grows. */
  ghost predicate LogExtends(db: Db, db': Db) {
    && db'.graphs == db.graphs
    && db'.investigations.Keys == db.investigations.Keys
    && (forall id :: StepsOf(db.steps, id) <= StepsOf(db'.steps, id))
    && (forall id :: id in db.investigations ==> SameRun(db.investigations[id], db'.investigations[id]))
  }

  lemma ApplyExtends(db: Db, r: Request)
    requires Sound(db)
    ensures LogExtends(db, Apply(db, r).0)
  {
    ApplyEffect(db, r);
    var (db', out) := Apply(db, r);
    if out.Ok? && !out.value.replayed {
      forall id ensures StepsOf(db.steps, id) <= StepsOf(db'.steps, id) { StepsOfGrows(db.steps, out.value.step, id); }
    }
  }

  /** Soundness and append-only logs over every history. */
  lemma {:induction false} ExecKeeps(db: Db, rs: seq<Request>)
    requires Sound(db)
    ensures Sound(Exec(db, rs)) && LogExtends(db, Exec(db, rs))
    decreases |rs|
  {
    if rs != [] {
      ApplyKeeps(db, rs[0]);
      ApplyExtends(db, rs[0]);
      ExecKeeps(Apply(db, rs[0]).0, rs[1..]);
    }
  }

  /**
    No two steps of an investigation leave the same node, and it never takes more steps
    than its graph has nodes, less one.
  */
  lemma NodesLeftOnce(db: Db, id: Uuid)
    requires Sound(db) && id in db.investigations
    ensures var ss := StepsOf(db.steps, id);
      && (forall i, j :: 0 <= i < j < |ss| ==> ss[i].nodeId != ss[j].nodeId)
      && (forall i :: 0 <= i < |ss| ==> ss[i].nodeId != db.investigations[id].current)
      && |ss| <= |NodeIds(GraphFor(db, id).nodes)| - 1
  {
    assert SoundAt(db, id);
    var inv, g, ss := db.investigations[id], GraphFor(db, id), StepsOf(db.steps, id);
    assert Playable(GraphOf(db, inv.versionId));
    RouteBounds(g, RootOf(g), StepEdges(g, ss));
    var p := RouteNodes(RootOf(g), StepEdges(g, ss));
    forall i | 0 <= i < |ss| ensures ss[i].nodeId == p[i] { StepLeaves(g, inv, ss, i); }
    DistinctAlong(ss, p, inv.current);
  }

  lemma StepLeaves(g: Graph, inv: Investigation, ss: seq<Step>, i: nat)
    requires History(g, inv, ss) && i < |ss|
    ensures ss[i].nodeId == RouteNode(RootOf(g), StepEdges(g, ss), i)
    ensures EdgeById(g.edges, ss[i].edgeId).Some? && ss[i].nodeId == EdgeById(g.edges, ss[i].edgeId).value.from
  {
    assert StepFits(g, inv, ss, i);
    assert StepEdges(g, ss)[i].from == RouteNode(RootOf(g), StepEdges(g, ss), i);
  }

  lemma DistinctAlong(ss: seq<Step>, p: seq<Uuid>, last: Uuid)
    requires NoDuplicates(p) && |p| == |ss| + 1 && p[|ss|] == last && forall i :: 0 <= i < |ss| ==> ss[i].nodeId == p[i]
    ensures forall i, j :: 0 <= i < j < |ss| ==> ss[i].nodeId != ss[j].nodeId
    ensures forall i :: 0 <= i < |ss| ==> ss[i].nodeId != last
  {
  }

  /**
    Of any decisions from one node, keyed or not, only the first to run is applied: once
    a step has left the node, every later request for an edge of that node that is not a
    replay is rejected, for ever.
  */
  lemma FirstDecisionWins(db: Db, rs: seq<Request>, first: Step, r: Request, e: Edge)
    requires Sound(db) && first in db.steps && r.investigationId == first.investigationId
    requires e.id == r.input.edgeId && e.from == first.nodeId
    requires e in GraphFor(db, first.investigationId).edges
    ensures var out := Apply(Exec(db, rs), r).1;
      out.Err? || (out.value.replayed && out.value.step.key == r.input.key)
  {
    var id := first.investigationId;
    StepsOfAre(db.steps, id);
    ExecKeeps(db, rs);
    var db' := Exec(db, rs);
    assert SoundAt(db', id);
    var inv, g, ss := db'.investigations[id], GraphFor(db', id), StepsOf(db'.steps, id);
    assert Playable(GraphOf(db', inv.versionId));
    NodesLeftOnce(db', id);
    assert first in ss;
    AcceptedIffLeaves(g, inv, e, r.now);
    ApplyEffect(db', r);
  }

  // ----- retries

  /** Two requests that ask for the same thing. */
  predicate SameBody(a: DecisionInput, b: DecisionInput) {
    a.edgeId == b.edgeId && a.actor == b.actor && a.rationale == b.rationale && a.evidence == b.evidence
  }

  /**
    Once a keyed decision is recorded, every later request under its key is answered from
    the record: the recorded step if it asks for the same thing, a rejection if not; in
    both cases nothing is written. The investigation may have moved on or completed.
  */
  lemma RetriesRecognised(db: Db, r: Request, rs: seq<Request>, retry: Request)
    requires Sound(db) && r.input.key.Some? && Apply(db, r).1.Ok?
    requires retry.investigationId == r.investigationId && retry.input.key == r.input.key
    ensures var later := Exec(Apply(db, r).0, rs);
      r.investigationId in later.investigations && Apply(later, retry) == (later,
        if SameBody(r.input, retry.input)
        then Ok(DecisionResult(later.investigations[r.investigationId], Apply(db, r).1.value.step, true))
        else Err(IdempotencyKeyReused))
  {
    ApplyEffect(db, r);
    ApplyKeeps(db, r);
    var (db', out) := Apply(db, r);
    var id, step := r.investigationId, out.value.step;
    if !out.value.replayed {
      StepsOfGrows(db.steps, step, id);
    }
    assert step in StepsOf(db'.steps, id) && step.key == r.input.key && Asks(step, r.input);
    EquivalentAsks(step, retry.input);
    ExecKeeps(db', rs);
    var later := Exec(db', rs);
    assert step in StepsOf(later.steps, id);
    assert SoundAt(later, id);
    FindKeyFinds(StepsOf(later.steps, id), r.input.key.value);
  }

  /** The requests of a history that are not answered from the record. */
  function Unreplayed(db: Db, rs: seq<Request>): seq<Request>
    decreases |rs|
  {
    if rs == [] then []
    else
      var (db', out) := Apply(db, rs[0]);
      (if out.Ok? && out.value.replayed then [] else [rs[0]]) + Unreplayed(db', rs[1..])
  }

  function NotReplays(outs: seq<Result<DecisionResult>>): seq<Result<DecisionResult>> {
    if outs == [] then []
    else (if outs[0].Ok? && outs[0].value.replayed then [] else [outs[0]]) + NotReplays(outs[1..])
  }

  /** Deleting every replayed request changes neither the final rows nor any other answer. */
  lemma {:induction false} ReplaysAreInvisible(db: Db, rs: seq<Request>)
    requires Sound(db)
    ensures Exec(db, Unreplayed(db, rs)) == Exec(db, rs)
    ensures Answers(db, Unreplayed(db, rs)) == NotReplays(Answers(db, rs))
    decreases |rs|
  {
    if rs != [] {
      ApplyEffect(db, rs[0]);
      ApplyKeeps(db, rs[0]);
      var (db', out) := Apply(db, rs[0]);
      ReplaysAreInvisible(db', rs[1..]);
      if out.Ok? && out.value.replayed {
        assert Unreplayed(db, rs) == Unreplayed(db', rs[1..]);
      } else {
        assert Unreplayed(db, rs) == [rs[0]] + Unreplayed(db', rs[1..]);
        assert Unreplayed(db, rs)[1..] == Unreplayed(db', rs[1..]);
      }
      assert Answers(db, rs)[1..] == Answers(db', rs[1..]);
    }
  }

  // ----- starting, and reading back

  /** The rows after an investigation that Start computed has been inserted under a new id. */
  function Begin(db: Db, id: Uuid, inv: Investigation): Db {
    db.(investigations := db.investigations[id := inv.(id := id)])
  }

  /** Starting on a published version keeps everything, and the new row is accepted. */
  lemma BeginKeeps(db: Db, id: Uuid, alertId: Uuid, version: Version, root: Node, now: Time)
    requires Sound(db) && id !in db.investigations && version.id in db.graphs && version.status == Published
    requires var g := GraphOf(db, version.id); Playable(g) && g.root == Some(root.id) && root in g.nodes
    ensures Start(alertId, version, root, now).Ok?
    ensures var inv := Start(alertId, version, root, now).value;
      && CompletionCheck(inv) && InVersion(db, inv.versionId, inv.current)
      && Sound(Begin(db, id, inv)) && StepsOf(db.steps, id) == []
  {
    var g := GraphOf(db, version.id);
    StartStands(g, alertId, version, root, now);
    var inv := Start(alertId, version, root, now).value;
    NoStepsYet(db, id);
    if inv.status == Done { DoneHasOutcome(g, inv); }
    var db' := Begin(db, id, inv);
    GraphsFrame(db, db');
    forall x | x in db'.investigations ensures SoundAt(db', x) {
      if x != id {
        assert SoundAt(db, x);
        SoundAtFrame(db, db', x);
      } else {
        FirstRowSound(g, db'.investigations[id]);
      }
    }
  }

  lemma FirstIsMember<T>(s: seq<T>)
    requires s != []
    ensures exists x :: x in s
  {
    assert s[0] in s;
  }

  lemma NoStepsYet(db: Db, id: Uuid)
    requires Sound(db) && id !in db.investigations
    ensures StepsOf(db.steps, id) == []
  {
    StepsOfAre(db.steps, id);
    if StepsOf(db.steps, id) != [] { FirstIsMember(StepsOf(db.steps, id)); }
  }

  lemma FirstRowSound(g: Graph, inv: Investigation)
    requires Standing(g, inv) && g.root == Some(inv.current)
    ensures History(g, inv, [])
  {
    assert StepEdges(g, []) == [];
  }

  /** GetWithSteps from any stored state returns a row and the steps that replay to it. */
  lemma ReadReplays(db: Db, id: Uuid)
    requires Sound(db) && id in db.investigations
    ensures ReadWithSteps(db, id) == Ok((db.investigations[id], StepsOf(db.steps, id)))
    ensures History(GraphFor(db, id), db.investigations[id], ReadWithSteps(db, id).value.1)
  {
    assert SoundAt(db, id);
    StepNumbers(GraphFor(db, id), db.investigations[id], StepsOf(db.steps, id));
    SortedStepsAreSorted(StepsOf(db.steps, id));
  }

  lemma SortedStepsAreSorted(ss: seq<Step>)
    requires forall i :: 0 <= i < |ss| ==> ss[i].number == i + 1
    ensures Sort(ByNumber, ss) == ss
  {
    StableSortUnique(ByNumber, ss, ss);
  }
}
