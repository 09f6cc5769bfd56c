/**
  The decision form's idempotency keys (frontend/src/components/DecisionForm.tsx) against
  the decision transaction, over a network that loses, delays and duplicates requests.
*/
module DecisionForm {
  import opened Domain
  import opened Engine
  import opened DecisionStore
  import opened DecisionHistory

  /** What the form sends; the key travels in a header. */
  datatype Body = Body(edgeId: Uuid, actor: Actor, rationale: Option<string>, evidence: seq<EvidenceItem>)

  /** The two refs: the key, and the content it was minted for. */
  datatype KeyRef = KeyRef(key: Option<string>, keyFor: Option<Body>)

  /** The refs after idempotencyKeyFor(body), which mints when the content has changed. */
  function KeyFor(k: KeyRef, body: Body, minted: string): KeyRef {
    if k.key == None || k.keyFor != Some(body) then KeyRef(Some(minted), Some(body)) else k
  }

  class Form {
    var keyRef: Option<string>
    var keyForRef: Option<Body>

    function Refs(): KeyRef
      reads this
    {
      KeyRef(keyRef, keyForRef)
    }

    constructor ()
      ensures Refs() == KeyRef(None, None)
    {
      keyRef, keyForRef := None, None;
    }

    /** minted is what crypto.randomUUID() would return. */
    method IdempotencyKeyFor(body: Body, minted: string) returns (key: string)
      modifies this
      ensures Refs() == KeyFor(old(Refs()), body, minted)
      ensures Refs() == KeyRef(Some(key), Some(body))
      ensures if old(keyRef).Some? && old(keyForRef) == Some(body) then key == old(keyRef).value else key == minted
    {
      if keyRef == None || keyForRef != Some(body) {
        keyRef := Some(minted);
        keyForRef := Some(body);
      }
      key := keyRef.value;
    }

    /** After a decision is recorded, the same content sent again gets another key. */
    method Acknowledge()
      modifies this
      ensures Refs() == KeyRef(None, None)
    {
      keyRef := None;
      keyForRef := None;
    }
  }

  // ----- the form, the network and the server

  /** One HTTP attempt. */
  datatype Attempt = Attempt(key: string, body: Body)

  datatype Ack = Ack(key: string, body: Body, step: Step)

  datatype World = World(
    id: Uuid,                                       // the investigation the form is about
    db: Db,
    refs: KeyRef,
    pending: Option<nat>,                           // the attempt being waited for
    sent: seq<Attempt>,                             // any of these may arrive at any time, any number of times
    answers: set<(nat, Result<DecisionResult>)>,    // what the server has answered to an attempt
    acks: seq<Ack>,                                 // what the form has seen acknowledged
    foreign: set<string>)                           // keys used by other clients

  datatype Event =
    | Send(body: Body, minted: string)                        // the analyst presses submit
    | Deliver(n: nat, now: Time, dbNow: Time, stepId: Uuid)   // some attempt reaches the server
    | Accept(result: DecisionResult)                          // its answer reaches the form
    | GiveUp                                                  // an error or a timeout reaches it instead
    | Reopen                                                  // the form is mounted anew
    | Elsewhere(r: Request)                                   // another client's decision

  function Minted(w: World): set<string> {
    set a | a in w.sent :: a.key
  }

  function ToRequest(w: World, e: Event): Request
    requires e.Deliver? && e.n < |w.sent|
  {
    var a := w.sent[e.n];
    Request(w.id, DecisionInput(a.body.edgeId, a.body.actor, a.body.rationale, a.body.evidence, Some(a.key)), e.now, e.dbNow, e.stepId)
  }

  predicate Possible(w: World, e: Event) {
    match e
    case Send(_, minted) => w.pending == None && minted !in Minted(w) && minted !in w.foreign
    case Deliver(n, _, _, _) => n < |w.sent|
    case Accept(result) => w.pending.Some? && w.pending.value < |w.sent| && (w.pending.value, Ok(result)) in w.answers
    case GiveUp => w.pending.Some?
    case Reopen => true
    case Elsewhere(r) => r.input.key.Some? ==> r.input.key.value !in Minted(w)
  }

  function React(w: World, e: Event): World
    requires Possible(w, e)
  {
    match e
    case Send(body, minted) =>
      var refs := KeyFor(w.refs, body, minted);
      w.(refs := refs, pending := Some(|w.sent|), sent := w.sent + [Attempt(refs.key.GetOr(minted), body)])
    case Deliver(n, _, _, _) =>
      var (db, out) := Apply(w.db, ToRequest(w, e));
      w.(db := db, answers := w.answers + {(n, out)})
    case Accept(result) =>
      var a := w.sent[w.pending.value];
      w.(refs := KeyRef(None, None), pending := None, acks := w.acks + [Ack(a.key, a.body, result.step)])
    case GiveUp => w.(pending := None)
    case Reopen => w.(refs := KeyRef(None, None), pending := None)
    case Elsewhere(r) =>
      w.(db := Apply(w.db, r).0, foreign := w.foreign + if r.input.key.Some? then {r.input.key.value} else {})
  }

  /** Step s records exactly what a body asks for. */
  predicate Records(s: Step, body: Body) {
    && s.edgeId == body.edgeId && s.actor == body.actor && s.rationale == body.rationale
    && s.evidence == StoredEvidence(body.evidence)
  }

  /** Step s of the investigation was recorded under this key for this body. */
  ghost predicate RecordedAs(w: World, s: Step, key: string, body: Body) {
    s in StepsOf(w.db.steps, w.id) && s.key == Some(key) && Records(s, body)
  }

  /** A key stands for one body, whoever retries it. */
  ghost predicate OneBodyPerKey(w: World) {
    forall i, j :: 0 <= i < |w.sent| && 0 <= j < |w.sent| && w.sent[i].key == w.sent[j].key ==> w.sent[i].body == w.sent[j].body
  }

  function RefsOf(a: Attempt): KeyRef {
    KeyRef(Some(a.key), Some(a.body))
  }

  ghost predicate RefsCurrent(w: World) {
    && (w.refs.key.Some? <==> w.refs.keyFor.Some?)
    && (w.refs.key.Some? ==> Attempt(w.refs.key.value, w.refs.keyFor.value) in w.sent)
    && (w.refs.key.Some? ==> forall a :: a in w.acks ==> a.key != w.refs.key.value)
    && (w.pending.Some? ==> w.pending.value < |w.sent| && RefsOf(w.sent[w.pending.value]) == w.refs)
  }

  /** What the server may have said to an attempt. */
  ghost predicate Answered(w: World, a: Attempt, out: Result<DecisionResult>) {
    && out != Err(IdempotencyKeyReused)
    && (out.Ok? ==> RecordedAs(w, out.value.step, a.key, a.body))
  }

  ghost predicate AnswersRecorded(w: World) {
    forall x :: x in w.answers ==> x.0 < |w.sent| && Answered(w, w.sent[x.0], x.1)
  }

  ghost predicate AcksRecorded(w: World) {
    && (forall a :: a in w.acks ==> a.key in Minted(w) && RecordedAs(w, a.step, a.key, a.body))
    && (forall i, j :: 0 <= i < j < |w.acks| ==> w.acks[i].key != w.acks[j].key)
  }

  ghost predicate Asked(w: World, s: Step)
    requires s.key.Some?
  {
    exists a :: a in w.sent && a.key == s.key.value && Records(s, a.body)
  }

  /** A step under one of the form's keys records one of the form's attempts. */
  ghost predicate KeysAreOurs(w: World) {
    && Minted(w) !! w.foreign
    && forall s :: s in StepsOf(w.db.steps, w.id) && s.key.Some? ==> s.key.value in w.foreign || Asked(w, s)
  }

  ghost predicate Inv(w: World) {
    && Sound(w.db) && w.id in w.db.investigations
    && OneBodyPerKey(w) && RefsCurrent(w) && AnswersRecorded(w) && AcksRecorded(w) && KeysAreOurs(w)
  }

  // ----- every event keeps the invariant

  lemma SendKeeps(w: World, e: Event)
    requires Inv(w) && Possible(w, e) && e.Send?
    ensures Inv(React(w, e))
  {
    var w' := React(w, e);
    var a := w'.sent[|w.sent|];
    assert a in w'.sent && forall x :: x in w.sent ==> x in w'.sent;
    assert a.key in Minted(w) ==> Attempt(a.key, e.body) in w.sent;
    forall i | 0 <= i < |w.sent| && w.sent[i].key == a.key ensures w.sent[i].body == a.body {
      assert w.sent[i] in w.sent && a.key in Minted(w);
      var j :| 0 <= j < |w.sent| && w.sent[j] == Attempt(a.key, e.body);
    }
    assert Minted(w') == Minted(w) + {a.key};
    forall s | s in StepsOf(w'.db.steps, w'.id) && s.key.Some?
      ensures s.key.value in w'.foreign || Asked(w', s)
    {
      if s.key.value !in w.foreign {
        var b :| b in w.sent && b.key == s.key.value && Records(s, b.body);
        assert b in w'.sent;
      }
    }
  }

  /** The server's rows change under the form by one transaction. */
  lemma RowsGrow(w: World, r: Request)
    requires Inv(w)
    ensures var db' := Apply(w.db, r).0;
      && Sound(db') && w.id in db'.investigations && StepsOf(w.db.steps, w.id) <= StepsOf(db'.steps, w.id)
      && forall s :: s in StepsOf(w.db.steps, w.id) ==> s in StepsOf(db'.steps, w.id)
  {
    ApplyKeeps(w.db, r);
    ApplyExtends(w.db, r);
  }

  /** A step that appears is the answer's. */
  lemma NewStepIs(w: World, r: Request, s: Step)
    requires Inv(w) && s in StepsOf(Apply(w.db, r).0.steps, w.id) && s !in StepsOf(w.db.steps, w.id)
    ensures s.key == r.input.key && Asks(s, r.input)
  {
    ApplyEffect(w.db, r);
    var (db', out) := Apply(w.db, r);
    if out.Ok? && !out.value.replayed { StepsOfGrows(w.db.steps, out.value.step, w.id); }
  }

  lemma DeliveredAnswer(w: World, e: Event)
    requires Inv(w) && Possible(w, e) && e.Deliver?
    ensures var (db', out) := Apply(w.db, ToRequest(w, e));
      Answered(w.(db := db'), w.sent[e.n], out)
  {
    var r, a := ToRequest(w, e), w.sent[e.n];
    ApplyEffect(w.db, r);
    var (db', out) := Apply(w.db, r);
    if out.Ok? && !out.value.replayed { StepsOfGrows(w.db.steps, out.value.step, w.id); }
    var ss := StepsOf(w.db.steps, w.id);
    FindKeyFinds(ss, a.key);
    var s := FindKey(ss, a.key);
    if s.Some? {
      assert a in w.sent && a.key in Minted(w);
      var b :| b in w.sent && b.key == a.key && Records(s.value, b.body);
      var i :| 0 <= i < |w.sent| && w.sent[i] == b;
      assert b.body == a.body;
      EquivalentAsks(s.value, r.input);
    } else {
      var g := GraphFor(w.db, w.id);
      RejectionCodes(w.db, w.id, Choice(r.input.edgeId, r.now));
      if Submit(g, w.db.investigations[w.id], Choice(r.input.edgeId, r.now)).Ok? { AdvanceWrites(w.db, r); }
    }
  }

  lemma DeliverKeeps(w: World, e: Event)
    requires Inv(w) && Possible(w, e) && e.Deliver?
    ensures Inv(React(w, e))
  {
    var r, w', a := ToRequest(w, e), React(w, e), w.sent[e.n];
    RowsGrow(w, r);
    DeliveredAnswer(w, e);
    forall s | s in StepsOf(w'.db.steps, w'.id) && s.key.Some?
      ensures s.key.value in w'.foreign || Asked(w', s)
    {
      if s !in StepsOf(w.db.steps, w.id) {
        NewStepIs(w, r, s);
        assert a in w'.sent && Records(s, a.body);
      }
    }
  }

  lemma ElsewhereKeeps(w: World, e: Event)
    requires Inv(w) && Possible(w, e) && e.Elsewhere?
    ensures Inv(React(w, e))
  {
    var w' := React(w, e);
    RowsGrow(w, e.r);
    forall s | s in StepsOf(w'.db.steps, w'.id) && s.key.Some?
      ensures s.key.value in w'.foreign || Asked(w', s)
    {
      if s !in StepsOf(w.db.steps, w.id) { NewStepIs(w, e.r, s); }
    }
  }

  lemma AcceptKeeps(w: World, e: Event)
    requires Inv(w) && Possible(w, e) && e.Accept?
    ensures Inv(React(w, e))
  {
    var w', n := React(w, e), w.pending.value;
    assert w.sent[n] in w.sent;
    var x: (nat, Result<DecisionResult>) := (n, Ok(e.result));
    assert x in w.answers;
    assert RecordedAs(w, e.result.step, w.sent[n].key, w.sent[n].body);
    forall i, j | 0 <= i < j < |w'.acks| ensures w'.acks[i].key != w'.acks[j].key {
      if j == |w.acks| { assert w.acks[i] in w.acks; }
    }
  }

  lemma StepKeeps(w: World, e: Event)
    requires Inv(w) && Possible(w, e)
    ensures Inv(React(w, e))
  {
    match e {
      case Send(_, _) => SendKeeps(w, e);
      case Deliver(_, _, _, _) => DeliverKeeps(w, e);
      case Accept(_) => AcceptKeeps(w, e);
      case GiveUp =>
      case Reopen =>
      case Elsewhere(_) => ElsewhereKeeps(w, e);
    }
  }

  // ----- histories

  predicate CanHappen(w: World, es: seq<Event>)
    decreases |es|
  {
    es == [] || (Possible(w, es[0]) && CanHappen(React(w, es[0]), es[1..]))
  }

  function AfterAll(w: World, es: seq<Event>): World
    requires CanHappen(w, es)
    decreases |es|
  {
    if es == [] then w else AfterAll(React(w, es[0]), es[1..])
  }

  lemma {:induction false} EventsKeep(w: World, es: seq<Event>)
    requires Inv(w) && CanHappen(w, es)
    ensures Inv(AfterAll(w, es))
    decreases |es|
  {
    if es != [] {
      StepKeeps(w, es[0]);
      EventsKeep(React(w, es[0]), es[1..]);
    }
  }

  /** A form that has just been opened on an investigation other clients may already have worked on. */
  function Opened(db: Db, id: Uuid, foreign: set<string>): World {
    World(id, db, KeyRef(None, None), None, [], {}, [], foreign)
  }

  /** Exactly one step of the log records this acknowledgement. */
  ghost predicate RecordedOnce(w: World, a: Ack) {
    && RecordedAs(w, a.step, a.key, a.body)
    && forall s :: s in StepsOf(w.db.steps, w.id) && s.key == Some(a.key) ==> s == a.step
  }

  /**
    Whatever is lost, delayed, duplicated or edited between retries: every acknowledged
    submit is recorded by exactly one step, with that content; no two acknowledgements
    share a key or a step; and no attempt of the form is ever told that its key was
    used for something else.
  */
  lemma AcknowledgedExactlyOnce(db: Db, id: Uuid, foreign: set<string>, es: seq<Event>)
    requires Sound(db) && id in db.investigations && CanHappen(Opened(db, id, foreign), es)
    requires forall s :: s in StepsOf(db.steps, id) && s.key.Some? ==> s.key.value in foreign
    ensures var w := AfterAll(Opened(db, id, foreign), es);
      && (forall a :: a in w.acks ==> RecordedOnce(w, a))
      && (forall i, j :: 0 <= i < j < |w.acks| ==> w.acks[i].key != w.acks[j].key && w.acks[i].step != w.acks[j].step)
      && (forall x :: x in w.answers ==> x.1 != Err(IdempotencyKeyReused))
  {
    assert Inv(Opened(db, id, foreign));
    EventsKeep(Opened(db, id, foreign), es);
    var w := AfterAll(Opened(db, id, foreign), es);
    SameId(Opened(db, id, foreign), es);
    assert SoundAt(w.db, w.id);
    forall a | a in w.acks ensures RecordedOnce(w, a) { FindKeyFinds(StepsOf(w.db.steps, w.id), a.key); }
    forall i, j | 0 <= i < j < |w.acks| ensures w.acks[i].key != w.acks[j].key && w.acks[i].step != w.acks[j].step {
      assert w.acks[i] in w.acks && w.acks[j] in w.acks;
    }
  }

  lemma {:induction false} SameId(w: World, es: seq<Event>)
    requires CanHappen(w, es)
    ensures AfterAll(w, es).id == w.id
    decreases |es|
  {
    if es != [] { SameId(React(w, es[0]), es[1..]); }
  }
}
