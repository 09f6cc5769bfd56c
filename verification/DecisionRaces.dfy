/**
  Who wins when decisions race: among transactions on one investigation, taken in the
  order in which they got its row lock; and that none is left hanging.
*/
module DecisionRaces {
  import opened Domain
  import opened Engine
  import opened DecisionStore
  import opened DecisionHistory
  import opened DecisionConcurrency

  /** The endings of transactions that held the lock of investigation id, in order. */
  function HeldEnds(endings: seq<Ending>, id: Uuid): seq<Ending> {
    if endings == [] then []
    else
      var e := endings[|endings| - 1];
      HeldEnds(endings[..|endings| - 1], id) + if e.held && e.req.investigationId == id then [e] else []
  }

  /** The transaction committed a step of its own. */
  predicate Recorded(e: Ending) {
    e.answer.Some? && e.answer.value.Ok? && !e.answer.value.value.replayed
  }

  function StepRecorded(e: Ending): Step
    requires Recorded(e)
  {
    e.answer.value.value.step
  }

  lemma {:induction false} HeldTids(endings: seq<Ending>, id: Uuid)
    ensures |HeldEnds(endings, id)| == |EndsOn(endings, id)|
    ensures forall k :: 0 <= k < |HeldEnds(endings, id)| ==> EndsOn(endings, id)[k] == HeldEnds(endings, id)[k].tid
  {
    if endings != [] { HeldTids(endings[..|endings| - 1], id); }
  }

  lemma {:induction false} HeldAt(endings: seq<Ending>, id: Uuid, a: nat) returns (i: nat)
    requires a < |HeldEnds(endings, id)|
    ensures i < |endings| && endings[i] == HeldEnds(endings, id)[a] && endings[i].req.investigationId == id
  {
    var rest := endings[..|endings| - 1];
    if a < |HeldEnds(rest, id)| { i := HeldAt(rest, id, a); } else { i := |rest|; }
  }

  /** Two of them, where they stand among all endings. */
  lemma {:induction false} HeldIndices(endings: seq<Ending>, id: Uuid, a: nat, b: nat) returns (i: nat, j: nat)
    requires a < b < |HeldEnds(endings, id)|
    ensures i < j < |endings| && endings[i] == HeldEnds(endings, id)[a] && endings[j] == HeldEnds(endings, id)[b]
    ensures endings[i].req.investigationId == id && endings[j].req.investigationId == id
  {
    var rest := endings[..|endings| - 1];
    if b < |HeldEnds(rest, id)| {
      i, j := HeldIndices(rest, id, a, b);
    } else {
      i := HeldAt(rest, id, a);
      j := |rest|;
    }
  }

  lemma {:induction false} AnsweredAt(endings: seq<Ending>, i: nat) returns (k: nat)
    requires i < |endings| && endings[i].answer.Some?
    ensures k < |Answered(endings)| && k < |Given(endings)|
    ensures Answered(endings)[k] == endings[i].req && Given(endings)[k] == endings[i].answer.value
  {
    var rest := endings[..|endings| - 1];
    if i < |rest| { k := AnsweredAt(rest, i); } else {
      SameCount(rest);
      k := |Answered(rest)|;
    }
  }

  lemma {:induction false} SameCount(endings: seq<Ending>)
    ensures |Answered(endings)| == |Given(endings)|
  {
    if endings != [] { SameCount(endings[..|endings| - 1]); }
  }

  /** Two answered transactions, where they stand in the serial history. */
  lemma {:induction false} AnsweredIndices(endings: seq<Ending>, i: nat, j: nat) returns (k: nat, l: nat)
    requires i < j < |endings| && endings[i].answer.Some? && endings[j].answer.Some?
    ensures k < l < |Answered(endings)| && l < |Given(endings)|
    ensures Answered(endings)[k] == endings[i].req && Given(endings)[k] == endings[i].answer.value
    ensures Answered(endings)[l] == endings[j].req && Given(endings)[l] == endings[j].answer.value
  {
    var rest := endings[..|endings| - 1];
    if j < |rest| {
      k, l := AnsweredIndices(rest, i, j);
    } else {
      k := AnsweredAt(rest, i);
      SameCount(rest);
      l := |Answered(rest)|;
    }
  }

  // ----- serial histories

  lemma {:induction false} AnswersAt(db: Db, rs: seq<Request>, k: nat)
    requires k < |rs|
    ensures k < |Answers(db, rs)| && Answers(db, rs)[k] == Apply(Exec(db, rs[..k]), rs[k]).1
    decreases |rs|
  {
    if k > 0 {
      AnswersAt(Apply(db, rs[0]).0, rs[1..], k - 1);
      assert rs[..k][1..] == rs[1..][..k - 1];
    }
  }

  lemma {:induction false} ExecSplits(db: Db, a: seq<Request>, b: seq<Request>)
    ensures Exec(db, a + b) == Exec(Exec(db, a), b)
    decreases |a|
  {
    if a == [] {
      assert a + b == b;
    } else {
      ExecSplits(Apply(db, a[0]).0, a[1..], b);
      assert (a + b)[1..] == a[1..] + b;
    }
  }

  /** The state after request k, and what comes between it and request l. */
  lemma ExecPast(db: Db, rs: seq<Request>, k: nat, l: nat)
    requires k < l < |rs|
    ensures Exec(db, rs[..l]) == Exec(Apply(Exec(db, rs[..k]), rs[k]).0, rs[k + 1..l])
  {
    ExecAppends(db, rs[..k], rs[k]);
    ExecSplits(db, rs[..k] + [rs[k]], rs[k + 1..l]);
    assert rs[..l] == rs[..k] + [rs[k]] + rs[k + 1..l];
  }

  /** After request k has recorded a step, no later one records another from the same node. */
  lemma LaterLoses(db: Db, rs: seq<Request>, k: nat, l: nat, e: Edge)
    requires Sound(db) && k < l < |rs| && |Answers(db, rs)| == |rs| && rs[k].investigationId == rs[l].investigationId
    requires var out := Answers(db, rs)[k]; out.Ok? && !out.value.replayed && e.from == out.value.step.nodeId
    requires rs[l].investigationId in db.investigations
    requires e in GraphFor(db, rs[l].investigationId).edges && e.id == rs[l].input.edgeId
    ensures Answers(db, rs)[l].Err? || Answers(db, rs)[l].value.replayed
  {
    var before := Exec(db, rs[..k]);
    var after := Apply(before, rs[k]).0;
    AnswersAt(db, rs, k);
    AnswersAt(db, rs, l);
    ExecPast(db, rs, k, l);
    ExecKeeps(db, rs[..k]);
    ApplyEffect(before, rs[k]);
    ApplyKeeps(before, rs[k]);
    FirstDecisionWins(after, rs[k + 1..l], Answers(db, rs)[k].value.step, rs[l], e);
  }

  // ----- interleavings

  lemma {:induction false} AnswersCount(db: Db, rs: seq<Request>)
    ensures |Answers(db, rs)| == |rs|
    decreases |rs|
  {
    if rs != [] { AnswersCount(Apply(db, rs[0]).0, rs[1..]); }
  }

  /**
    In every interleaving: transaction x got the lock of an investigation before
    transaction y, and both are over. If x recorded a step, y recorded none by an edge of
    the node that x left. So of the decisions at one node the first accepted one, in the
    order of the lock, is the only one to be recorded.
  */
  lemma FirstLockWins(db0: Db, run: seq<Action>, id: Uuid, a: nat, b: nat, e: Edge)
    requires Sound(db0) && id in db0.investigations && CanRun(Fresh(db0), run)
    requires a < b < |HeldEnds(After(Fresh(db0), run).endings, id)|
    ensures var s := After(Fresh(db0), run);
      var x, y := HeldEnds(s.endings, id)[a], HeldEnds(s.endings, id)[b];
      && b < |LocksOn(s.locks, id)| && LocksOn(s.locks, id)[a] == x.tid && LocksOn(s.locks, id)[b] == y.tid
      && (Recorded(x) && e in GraphFor(db0, id).edges && e.from == StepRecorded(x).nodeId && e.id == y.req.input.edgeId ==>
            !Recorded(y))
  {
    var s := After(Fresh(db0), run);
    var x, y := HeldEnds(s.endings, id)[a], HeldEnds(s.endings, id)[b];
    ConcurrentDecisions(db0, run);
    HeldTids(s.endings, id);
    LocksBeginWithEnds(s, id);
    if Recorded(x) && Recorded(y) && e in GraphFor(db0, id).edges && e.from == StepRecorded(x).nodeId && e.id == y.req.input.edgeId {
      var i, j := HeldIndices(s.endings, id, a, b);
      var k, l := AnsweredIndices(s.endings, i, j);
      AnswersCount(db0, Answered(s.endings));
      LaterLoses(db0, Answered(s.endings), k, l, e);
    }
  }

  lemma LocksBeginWithEnds(s: State, id: Uuid)
    requires LockOrder(s)
    ensures EndsOn(s.endings, id) <= LocksOn(s.locks, id)
  {
    if t :| t in s.txns && Holds(s, t, id) {
      assert LocksOn(s.locks, id) == EndsOn(s.endings, id) + [t];
    }
  }

  // ----- no decision is left hanging

  /** How many statements a transaction may still have to run. */
  function StatementsLeft(p: Phase): nat {
    match p
    case Waiting => 6
    case Locked(_) => 5
    case KeyChecked(_) => 4
    case Moving(_, _) => 3
    case Inserted(_, _, _) => 2
    case Updated(_, _, _) => 1
    case Ended => 0
  }

  function NextAction(t: Tid, p: Phase): Action {
    match p
    case Waiting => Lock(t)
    case Locked(_) => CheckKey(t)
    case KeyChecked(_) => Check(t)
    case Moving(_, _) => Insert(t)
    case Inserted(_, _, _) => Update(t)
    case _ => Commit(t)
  }

  lemma NextActionRuns(s: State, t: Tid)
    requires Inv(s) && t in s.txns && !s.txns[t].phase.Ended?
    requires s.txns[t].phase.Waiting? ==> forall u :: !Holds(s, u, s.txns[t].req.investigationId)
    ensures Enabled(s, NextAction(t, s.txns[t].phase))
    ensures var s' := Do(s, NextAction(t, s.txns[t].phase));
      && t in s'.txns && s'.txns[t].req == s.txns[t].req
      && (s'.endings == s.endings ==>
            !s'.txns[t].phase.Ended? && !s'.txns[t].phase.Waiting? && StatementsLeft(s'.txns[t].phase) < StatementsLeft(s.txns[t].phase))
      && (s'.endings != s.endings ==> s'.txns[t].phase.Ended?)
  {
  }

  /**
    A transaction that holds its row, or whose row nobody holds, and that now runs to its
    end gives the answer of ApplyDecision on the committed rows, and leaves its rows.
  */
  lemma {:induction false} RunsToItsEnd(s: State, t: Tid) returns (run: seq<Action>)
    requires Inv(s) && t in s.txns && !s.txns[t].phase.Ended?
    requires s.txns[t].phase.Waiting? ==> forall u :: !Holds(s, u, s.txns[t].req.investigationId)
    ensures CanRun(s, run) && |run| <= StatementsLeft(s.txns[t].phase) && forall a :: a in run ==> a.tid == t && !a.Begin? && !a.Abort?
    ensures EndsWith(s, After(s, run), t)
    decreases StatementsLeft(s.txns[t].phase)
  {
    var a := NextAction(t, s.txns[t].phase);
    NextActionRuns(s, t);
    DoRefines(s, a);
    var s' := Do(s, a);
    run := [a];
    assert run[1..] == [];
    if s'.endings == s.endings {
      var rest := RunsToItsEnd(s', t);
      run := [a] + rest;
      assert run[1..] == rest;
    }
  }

  /** Transaction t is over, and its answer and its rows are those of ApplyDecision on the rows of s. */
  ghost predicate EndsWith(s: State, s': State, t: Tid)
    requires t in s.txns
  {
    && s'.db == Apply(s.db, s.txns[t].req).0 && t in s'.txns && s'.txns[t].phase.Ended?
    && |s'.endings| == |s.endings| + 1 && s'.endings[..|s.endings|] == s.endings
    && s'.endings[|s.endings|].tid == t && s'.endings[|s.endings|].answer == Some(Apply(s.db, s.txns[t].req).1)
  }
}
