/**
  Concurrent decisions: any number of ApplyDecision transactions, each a sequence of
  statements under READ COMMITTED, interleaved in any order and aborted at any point.

  PostgreSQL is represented by what it promises: a row locked FOR UPDATE has one holder,
  a statement sees the rows committed when it runs plus its own, uniqueness is checked
  against committed and pending rows, and a rolled-back transaction leaves nothing.
*/
module DecisionConcurrency {
  import opened Domain
  import opened Engine
  import opened DecisionStore
  import opened DecisionHistory

  type Tid = nat

  /** How far a transaction has got, with the local variables it still needs. */
  datatype Phase =
    | Waiting                                                       // before the row lock
    | Locked(inv: Investigation)                                    // row locked and read
    | KeyChecked(inv: Investigation)                                // not a replay
    | Moving(inv: Investigation, next: Investigation)               // edge loaded, Decide accepted
    | Inserted(inv: Investigation, next: Investigation, step: Step) // step row pending
    | Updated(inv: Investigation, next: Investigation, step: Step)  // both rows pending
    | Ended

  datatype Txn = Txn(req: Request, phase: Phase)

  /** How a transaction ended: with an answer or aborted with none, and whether it held its lock. */
  datatype Ending = Ending(tid: Tid, req: Request, answer: Option<Result<DecisionResult>>, held: bool)

  /** Committed rows, transactions, and two histories: locks taken and transactions ended. */
  datatype State = State(db: Db, txns: map<Tid, Txn>, locks: seq<(Tid, Uuid)>, endings: seq<Ending>)

  datatype Action =
    | Begin(tid: Tid, req: Request)
    | Lock(tid: Tid)
    | CheckKey(tid: Tid)
    | Check(tid: Tid)
    | Insert(tid: Tid)
    | Update(tid: Tid)
    | Commit(tid: Tid)
    | Abort(tid: Tid)

  predicate InCritical(p: Phase) {
    !p.Waiting? && !p.Ended?
  }

  predicate Holds(s: State, t: Tid, id: Uuid) {
    t in s.txns && s.txns[t].req.investigationId == id && InCritical(s.txns[t].phase)
  }

  /** Another transaction has written this number or key for the same investigation, and not committed. */
  predicate PendingClash(s: State, t: Tid, step: Step) {
    exists u :: u in s.txns && u != t && (s.txns[u].phase.Inserted? || s.txns[u].phase.Updated?) &&
      var other := s.txns[u].phase.step;
      other.investigationId == step.investigationId &&
      (other.number == step.number || (step.key.Some? && other.key == step.key))
  }

  // ----- one statement

  predicate Enabled(s: State, a: Action) {
    match a
    case Begin(t, r) => t !in s.txns
    case Lock(t) =>
      t in s.txns && s.txns[t].phase.Waiting? &&
      !exists u :: u in s.txns && Holds(s, u, s.txns[t].req.investigationId)
    case CheckKey(t) => t in s.txns && s.txns[t].phase.Locked?
    case Check(t) => t in s.txns && s.txns[t].phase.KeyChecked?
    case Insert(t) => t in s.txns && s.txns[t].phase.Moving?
    case Update(t) => t in s.txns && s.txns[t].phase.Inserted?
    case Commit(t) => t in s.txns && s.txns[t].phase.Updated?
    case Abort(t) => t in s.txns && !s.txns[t].phase.Ended?
  }

  function Goto(s: State, t: Tid, p: Phase): State
    requires t in s.txns
  {
    s.(txns := s.txns[t := s.txns[t].(phase := p)])
  }

  function EndingOf(s: State, t: Tid, answer: Option<Result<DecisionResult>>): Ending
    requires t in s.txns
  {
    Ending(t, s.txns[t].req, answer, InCritical(s.txns[t].phase))
  }

  /** The transaction is over, with its pending rows committed (db) or gone. */
  function End(s: State, t: Tid, db: Db, answer: Option<Result<DecisionResult>>): State
    requires t in s.txns
  {
    Goto(s, t, Ended).(db := db, endings := s.endings + [EndingOf(s, t, answer)])
  }

  function Do(s: State, a: Action): State
    requires Enabled(s, a)
  {
    match a
    case Begin(t, r) => s.(txns := s.txns[t := Txn(r, Waiting)])
    case Lock(t) =>
      var id := s.txns[t].req.investigationId;
      if id !in s.db.investigations then End(s, t, s.db, Some(Err(NotFound)))
      else Goto(s, t, Locked(s.db.investigations[id])).(locks := s.locks + [(t, id)])
    case CheckKey(t) =>
      var txn := s.txns[t];
      var found := FindReplay(StepsOf(s.db.steps, txn.req.investigationId), txn.req.input);
      if found.Err? then End(s, t, s.db, Some(Err(found.error)))
      else if found.value.Some? then End(s, t, s.db, Some(Ok(DecisionResult(txn.phase.inv, found.value.value, true))))
      else Goto(s, t, KeyChecked(txn.phase.inv))
    case Check(t) =>
      var txn := s.txns[t];
      var inv := txn.phase.inv;
      var moved := Submit(GraphOf(s.db, inv.versionId), inv, Choice(txn.req.input.edgeId, txn.req.now));
      if moved.Err? then End(s, t, s.db, Some(Err(moved.error))) else Goto(s, t, Moving(inv, moved.value))
    case Insert(t) =>
      var txn := s.txns[t];
      var step := RowFor(s.db, txn.phase.inv, txn.req);
      var inserted := InsertStep(s.db, step);
      if inserted.Err? then End(s, t, s.db, Some(Err(inserted.error)))
      else if PendingClash(s, t, step) then End(s, t, s.db, Some(Err(Conflict)))
      else Goto(s, t, Inserted(txn.phase.inv, txn.phase.next, step))
    case Update(t) =>
      var p := s.txns[t].phase;
      var updated := UpdateInvestigation(s.db, p.next);
      if updated.Err? then End(s, t, s.db, Some(Err(updated.error))) else Goto(s, t, Updated(p.inv, p.next, p.step))
    case Commit(t) =>
      var p := s.txns[t].phase;
      End(s, t, Db(s.db.graphs, s.db.investigations[p.next.id := p.next], s.db.steps + [p.step]),
          Some(Ok(DecisionResult(p.next, p.step, false))))
    case Abort(t) => End(s, t, s.db, None)
  }

  // ----- the invariant

  /** What a transaction has read still holds of the committed rows. */
  ghost predicate ReadsHold(db: Db, txn: Txn) {
    var id := txn.req.investigationId;
    var p := txn.phase;
    InCritical(p) ==>
      && id in db.investigations && db.investigations[id] == p.inv && p.inv.id == id
      && (!p.Locked? ==> FindReplay(StepsOf(db.steps, id), txn.req.input) == Ok(None))
      && (!p.Locked? && !p.KeyChecked? ==>
            Submit(GraphFor(db, id), p.inv, Choice(txn.req.input.edgeId, txn.req.now)) == Ok(p.next))
      && (p.Inserted? || p.Updated? ==> p.step == RowFor(db, p.inv, txn.req))
  }

  /** Who locked investigation id, in order. */
  function LocksOn(locks: seq<(Tid, Uuid)>, id: Uuid): seq<Tid> {
    if locks == [] then []
    else
      var l := locks[|locks| - 1];
      LocksOn(locks[..|locks| - 1], id) + if l.1 == id then [l.0] else []
  }

  /** Which of them have ended, in order. */
  function EndsOn(endings: seq<Ending>, id: Uuid): seq<Tid> {
    if endings == [] then []
    else
      var e := endings[|endings| - 1];
      EndsOn(endings[..|endings| - 1], id) + if e.held && e.req.investigationId == id then [e.tid] else []
  }

  ghost predicate Inv(s: State) {
    && Sound(s.db)
    && (forall t :: t in s.txns ==> ReadsHold(s.db, s.txns[t]))
    && (forall t, u, id :: Holds(s, t, id) && Holds(s, u, id) ==> t == u)
  }

  /** Nothing that another investigation's transaction relies on changes. */
  lemma OthersUnaffected(db: Db, db': Db, txn: Txn, id: Uuid, step: Step)
    requires ReadsHold(db, txn) && txn.req.investigationId != id && step.investigationId == id
    requires db'.graphs == db.graphs && db'.steps == db.steps + [step]
    requires forall x :: x in db.investigations && x != id ==> x in db'.investigations && db'.investigations[x] == db.investigations[x]
    ensures ReadsHold(db', txn)
  {
    StepsOfGrows(db.steps, step, txn.req.investigationId);
  }

  /** An insert never meets a taken number or key, pending or committed. */
  lemma NoClash(s: State, t: Tid)
    requires Inv(s) && t in s.txns && s.txns[t].phase.Moving?
    ensures var row := RowFor(s.db, s.txns[t].phase.inv, s.txns[t].req);
      && InsertStep(s.db, row).Ok? && !PendingClash(s, t, row)
      && forall u :: u in s.txns && u != t && (s.txns[u].phase.Inserted? || s.txns[u].phase.Updated?) ==>
           s.txns[u].phase.step.investigationId != row.investigationId
  {
    var txn := s.txns[t];
    assert ReadsHold(s.db, txn) && Holds(s, t, txn.req.investigationId);
    SubmitMoves(GraphFor(s.db, txn.req.investigationId), txn.phase.inv, Choice(txn.req.input.edgeId, txn.req.now));
    InsertSucceeds(s.db, txn.req);
    forall u | u in s.txns && u != t && (s.txns[u].phase.Inserted? || s.txns[u].phase.Updated?)
      ensures s.txns[u].phase.step.investigationId != txn.req.investigationId
    {
      assert ReadsHold(s.db, s.txns[u]) && Holds(s, u, s.txns[u].req.investigationId);
    }
  }

  /** A transaction that has written both rows would be accepted by the atomic step, with these rows. */
  lemma WritesMatch(db: Db, txn: Txn)
    requires Sound(db) && ReadsHold(db, txn) && (txn.phase.Moving? || txn.phase.Inserted? || txn.phase.Updated?)
    ensures var p := txn.phase;
      var row := RowFor(db, p.inv, txn.req);
      && Apply(db, txn.req) ==
           (Db(db.graphs, db.investigations[p.next.id := p.next], db.steps + [row]), Ok(DecisionResult(p.next, row, false)))
      && p.next.id == txn.req.investigationId && row.investigationId == p.next.id
      && UpdateInvestigation(db, p.next).Ok?
  {
    AdvanceWrites(db, txn.req);
    var g := GraphFor(db, txn.req.investigationId);
    assert SoundAt(db, txn.req.investigationId) && Playable(GraphOf(db, txn.phase.inv.versionId));
    SubmitStands(g, txn.phase.inv, Choice(txn.req.input.edgeId, txn.req.now));
    if txn.phase.next.status == Done { DoneHasOutcome(g, txn.phase.next); }
  }

  lemma StaysExclusive(s: State, a: Action)
    requires Inv(s) && Enabled(s, a)
    ensures forall u, v, id :: Holds(Do(s, a), u, id) && Holds(Do(s, a), v, id) ==> u == v
  {
    var s', t := Do(s, a), a.tid;
    forall u, v, id | Holds(s', u, id) && Holds(s', v, id) ensures u == v {
      assert u != t || (!a.Lock? && !a.Begin?) ==> Holds(s, u, id);
      assert v != t || (!a.Lock? && !a.Begin?) ==> Holds(s, v, id);
    }
  }

  /**
    Every statement keeps the invariant, and is either invisible in the committed rows or
    the end of a transaction whose rows and answer are those of the atomic ApplyDecision.
  */
  lemma DoRefines(s: State, a: Action)
    requires Inv(s) && Enabled(s, a)
    ensures Inv(Do(s, a))
    ensures var s' := Do(s, a);
      || (s'.endings == s.endings && s'.db == s.db)
      || (a.Abort? && s'.endings == s.endings + [EndingOf(s, a.tid, None)] && s'.db == s.db)
      || (a.tid in s.txns &&
            s'.endings == s.endings + [EndingOf(s, a.tid, Some(Apply(s.db, s.txns[a.tid].req).1))] &&
            s'.db == Apply(s.db, s.txns[a.tid].req).0)
  {
    StaysExclusive(s, a);
    match a {
      case Begin(t, r) =>
      case Lock(t) =>
        assert s.txns[t].req.investigationId in s.db.investigations ==> SoundAt(s.db, s.txns[t].req.investigationId);
      case CheckKey(t) => assert ReadsHold(s.db, s.txns[t]);
      case Check(t) => assert ReadsHold(s.db, s.txns[t]);
      case Insert(t) =>
        assert ReadsHold(s.db, s.txns[t]);
        NoClash(s, t);
      case Update(t) =>
        assert ReadsHold(s.db, s.txns[t]);
        WritesMatch(s.db, s.txns[t]);
      case Commit(t) =>
        CommitRefines(s, t);
      case Abort(t) =>
    }
  }

  lemma CommitRefines(s: State, t: Tid)
    requires Inv(s) && t in s.txns && s.txns[t].phase.Updated?
    ensures var s' := Do(s, Commit(t));
      && Inv(s')
      && s'.endings == s.endings + [EndingOf(s, t, Some(Apply(s.db, s.txns[t].req).1))]
      && s'.db == Apply(s.db, s.txns[t].req).0
  {
    var s' := Do(s, Commit(t));
    var txn := s.txns[t];
    assert ReadsHold(s.db, txn) && Holds(s, t, txn.req.investigationId);
    WritesMatch(s.db, txn);
    ApplyKeeps(s.db, txn.req);
    forall u | u in s'.txns ensures ReadsHold(s'.db, s'.txns[u]) {
      if u != t && InCritical(s.txns[u].phase) {
        assert Holds(s, u, s.txns[u].req.investigationId);
        OthersUnaffected(s.db, s'.db, s.txns[u], txn.req.investigationId, txn.phase.step);
      }
    }
    StaysExclusive(s, Commit(t));
  }

  // ----- whole runs

  /** A finite interleaving: each action enabled when it runs. */
  predicate CanRun(s: State, run: seq<Action>)
    decreases |run|
  {
    run == [] || (Enabled(s, run[0]) && CanRun(Do(s, run[0]), run[1..]))
  }

  function After(s: State, run: seq<Action>): State
    requires CanRun(s, run)
    decreases |run|
  {
    if run == [] then s else After(Do(s, run[0]), run[1..])
  }

  function Fresh(db: Db): State {
    State(db, map[], [], [])
  }

  /** The requests that were answered, in the order their transactions ended. */
  function Answered(endings: seq<Ending>): seq<Request> {
    if endings == [] then []
    else
      var e := endings[|endings| - 1];
      Answered(endings[..|endings| - 1]) + if e.answer.Some? then [e.req] else []
  }

  function Given(endings: seq<Ending>): seq<Result<DecisionResult>> {
    if endings == [] then []
    else
      var e := endings[|endings| - 1];
      Given(endings[..|endings| - 1]) + if e.answer.Some? then [e.answer.value] else []
  }

  lemma {:induction false} ExecAppends(db: Db, rs: seq<Request>, r: Request)
    ensures Exec(db, rs + [r]) == Apply(Exec(db, rs), r).0
    ensures Answers(db, rs + [r]) == Answers(db, rs) + [Apply(Exec(db, rs), r).1]
    decreases |rs|
  {
    if rs == [] {
      assert ([r])[1..] == [] && rs + [r] == [r];
    } else {
      assert (rs + [r])[1..] == rs[1..] + [r];
      ExecAppends(Apply(db, rs[0]).0, rs[1..], r);
    }
  }

  /** The committed rows and all answers are those of running ApplyDecision atomically, one at a time. */
  ghost predicate Serial(db0: Db, s: State) {
    s.db == Exec(db0, Answered(s.endings)) && Given(s.endings) == Answers(db0, Answered(s.endings))
  }

  /** On every investigation, transactions end in the order in which they took the lock; at most one is still inside. */
  ghost predicate LockOrder(s: State) {
    && (forall t, id :: Holds(s, t, id) ==> LocksOn(s.locks, id) == EndsOn(s.endings, id) + [t])
    && (forall id {:trigger LocksOn(s.locks, id)} :: (forall t :: !Holds(s, t, id)) ==> LocksOn(s.locks, id) == EndsOn(s.endings, id))
  }

  lemma EndKeepsLockOrder(s: State, t: Tid, db: Db, answer: Option<Result<DecisionResult>>)
    requires Inv(s) && LockOrder(s) && t in s.txns && !s.txns[t].phase.Ended?
    ensures LockOrder(End(s, t, db, answer))
  {
    var s' := End(s, t, db, answer);
    assert s'.endings[..|s.endings|] == s.endings;
    forall u, id | Holds(s', u, id) ensures LocksOn(s'.locks, id) == EndsOn(s'.endings, id) + [u] {
      assert Holds(s, u, id);
      assert Holds(s, t, id) ==> t == u;
    }
    forall id | forall u :: !Holds(s', u, id) ensures LocksOn(s'.locks, id) == EndsOn(s'.endings, id) {
      if !Holds(s, t, id) {
        forall u ensures !Holds(s, u, id) { assert !Holds(s', u, id); }
      }
    }
  }

  lemma LockKeepsLockOrder(s: State, t: Tid)
    requires Inv(s) && LockOrder(s) && Enabled(s, Lock(t)) && s.txns[t].req.investigationId in s.db.investigations
    ensures LockOrder(Do(s, Lock(t)))
  {
    var s' := Do(s, Lock(t));
    var mine := s.txns[t].req.investigationId;
    assert s'.locks[..|s.locks|] == s.locks;
    assert forall u :: !Holds(s, u, mine);
    forall u, id | Holds(s', u, id) ensures LocksOn(s'.locks, id) == EndsOn(s'.endings, id) + [u] {
      assert u != t ==> Holds(s, u, id);
      assert id == mine ==> LocksOn(s.locks, id) == EndsOn(s.endings, id);
    }
    forall id | forall u :: !Holds(s', u, id) ensures LocksOn(s'.locks, id) == EndsOn(s'.endings, id) {
      assert !Holds(s', t, id);
      forall u ensures !Holds(s, u, id) { assert !Holds(s', u, id); }
    }
  }

  lemma GotoKeepsLockOrder(s: State, s': State)
    requires LockOrder(s) && s'.locks == s.locks && s'.endings == s.endings
    requires forall t, id :: Holds(s', t, id) <==> Holds(s, t, id)
    ensures LockOrder(s')
  {
    forall id | forall u :: !Holds(s', u, id) ensures LocksOn(s'.locks, id) == EndsOn(s'.endings, id) {
      forall u ensures !Holds(s, u, id) { assert !Holds(s', u, id); }
    }
  }

  lemma DoKeepsLockOrder(s: State, a: Action)
    requires Inv(s) && LockOrder(s) && Enabled(s, a)
    ensures LockOrder(Do(s, a))
  {
    var s' := Do(s, a);
    if s'.endings != s.endings {
      var e := s'.endings[|s.endings|];
      EndKeepsLockOrder(s, e.tid, s'.db, e.answer);
    } else if a.Lock? {
      LockKeepsLockOrder(s, a.tid);
    } else {
      GotoKeepsLockOrder(s, s');
    }
  }

  lemma DoKeepsSerial(db0: Db, s: State, a: Action)
    requires Inv(s) && Serial(db0, s) && Enabled(s, a)
    ensures Serial(db0, Do(s, a))
  {
    DoRefines(s, a);
    var s' := Do(s, a);
    if s'.endings != s.endings {
      assert s'.endings[..|s.endings|] == s.endings;
      var e := s'.endings[|s.endings|];
      if e.answer.Some? {
        ExecAppends(db0, Answered(s.endings), e.req);
      } else {
        assert Answered(s'.endings) == Answered(s.endings) && Given(s'.endings) == Given(s.endings);
      }
    }
  }

  /**
    Every interleaving is equivalent to running ApplyDecision atomically: the rows and
    the answers are those of the serial history, and on each investigation the serial
    order is the order in which the row lock was taken.
  */
  lemma {:induction false} Serialisable(db0: Db, s: State, run: seq<Action>)
    requires Inv(s) && Serial(db0, s) && LockOrder(s) && CanRun(s, run)
    ensures var s' := After(s, run); Inv(s') && Serial(db0, s') && LockOrder(s')
    decreases |run|
  {
    if run != [] {
      DoRefines(s, run[0]);
      DoKeepsSerial(db0, s, run[0]);
      DoKeepsLockOrder(s, run[0]);
      Serialisable(db0, Do(s, run[0]), run[1..]);
    }
  }

  /** The unique violation on (investigation_id, sequence_number), and every other constraint error, is unreachable. */
  lemma {:induction false} NoConstraintErrors(db0: Db, rs: seq<Request>)
    requires Sound(db0)
    ensures forall out :: out in Answers(db0, rs) && out.Err? ==>
      out.error in {NotFound, IdempotencyKeyReused, InvestigationCompleted, InvalidTransition}
    decreases |rs|
  {
    if rs != [] {
      ApplyEffect(db0, rs[0]);
      ApplyKeeps(db0, rs[0]);
      NoConstraintErrors(Apply(db0, rs[0]).0, rs[1..]);
    }
  }

  /** From sound rows, every interleaving of every set of transactions. */
  lemma ConcurrentDecisions(db0: Db, run: seq<Action>)
    requires Sound(db0) && CanRun(Fresh(db0), run)
    ensures var s := After(Fresh(db0), run);
      && Sound(s.db) && Serial(db0, s) && LockOrder(s) && LogExtends(db0, s.db)
      && (forall out :: out in Given(s.endings) && out.Err? ==>
            out.error in {NotFound, IdempotencyKeyReused, InvestigationCompleted, InvalidTransition})
  {
    Serialisable(db0, Fresh(db0), run);
    var s := After(Fresh(db0), run);
    ExecKeeps(db0, Answered(s.endings));
    NoConstraintErrors(db0, Answered(s.endings));
  }

  /** The next statement of transaction t can run now. */
  ghost predicate CanStep(s: State, t: Tid) {
    exists a: Action :: !a.Begin? && !a.Abort? && a.tid == t && Enabled(s, a)
  }

  /** No transaction waits for ever on another: whoever holds the lock can run its next statement. */
  lemma LockHolderRuns(s: State, t: Tid)
    requires t in s.txns && !s.txns[t].phase.Ended?
    ensures exists u :: u in s.txns && s.txns[u].req.investigationId == s.txns[t].req.investigationId && CanStep(s, u)
  {
    var id := s.txns[t].req.investigationId;
    if InCritical(s.txns[t].phase) {
      HolderRuns(s, t);
    } else if u :| u in s.txns && Holds(s, u, id) {
      HolderRuns(s, u);
    } else {
      assert Enabled(s, Lock(t));
    }
  }

  lemma HolderRuns(s: State, t: Tid)
    requires t in s.txns && InCritical(s.txns[t].phase)
    ensures CanStep(s, t)
  {
    match s.txns[t].phase {
      case Locked(_) => assert Enabled(s, CheckKey(t));
      case KeyChecked(_) => assert Enabled(s, Check(t));
      case Moving(_, _) => assert Enabled(s, Insert(t));
      case Inserted(_, _, _) => assert Enabled(s, Update(t));
      case Updated(_, _, _) => assert Enabled(s, Commit(t));
    }
  }
}
