/**
  Submitting again: which key the form sends, and what the server answers.
*/
module FormRetries {
  import opened Domain
  import opened Engine
  import opened DecisionStore
  import opened DecisionHistory
  import opened DecisionOutcome
  import opened DecisionForm

  // ----- which key

  /** The attempt that pressing submit sends. */
  function NextAttempt(w: World, body: Body, minted: string): Attempt
    requires Possible(w, Send(body, minted))
  {
    React(w, Send(body, minted)).sent[|w.sent|]
  }

  /** Events during which the form keeps what it has: answers lost, deliveries, other clients, the same content again. */
  predicate Keeps(e: Event, body: Body) {
    e.Deliver? || e.Elsewhere? || e.GiveUp? || (e.Send? && e.body == body)
  }

  predicate AllKeep(es: seq<Event>, body: Body) {
    forall e :: e in es ==> Keeps(e, body)
  }

  /** Pressing submit sends the body, under the key in use if there is one for it, else under the minted key. */
  lemma SendSends(w: World, body: Body, minted: string)
    requires Inv(w) && Possible(w, Send(body, minted))
    ensures var w' := React(w, Send(body, minted));
      && w'.sent == w.sent + [NextAttempt(w, body, minted)] && w'.pending == Some(|w.sent|)
      && NextAttempt(w, body, minted).body == body
      && (NextAttempt(w, body, minted).key == if w.refs.key.Some? && w.refs.keyFor == Some(body) then w.refs.key.value else minted)
      && w'.refs == KeyRef(Some(NextAttempt(w, body, minted).key), Some(body))
      && w'.db == w.db && w'.id == w.id && w'.acks == w.acks && w'.answers == w.answers
  {
  }

  lemma {:induction false} KeyKept(w: World, es: seq<Event>, key: string, body: Body)
    requires Inv(w) && CanHappen(w, es) && AllKeep(es, body) && w.refs == KeyRef(Some(key), Some(body))
    ensures AfterAll(w, es).refs == KeyRef(Some(key), Some(body)) && Inv(AfterAll(w, es))
    decreases |es|
  {
    if es != [] {
      var e := es[0];
      assert Keeps(e, body);
      StepKeeps(w, e);
      if e.Send? { SendSends(w, body, e.minted); }
      KeyKept(React(w, e), es[1..], key, body);
    }
  }

  /** However often the same content is submitted before it is acknowledged, it goes under one key. */
  lemma RetriesShareTheKey(w: World, body: Body, first: string, es: seq<Event>, again: string)
    requires Inv(w) && Possible(w, Send(body, first)) && CanHappen(React(w, Send(body, first)), es) && AllKeep(es, body)
    requires Possible(AfterAll(React(w, Send(body, first)), es), Send(body, again))
    ensures NextAttempt(AfterAll(React(w, Send(body, first)), es), body, again) == NextAttempt(w, body, first)
  {
    var w1 := React(w, Send(body, first));
    StepKeeps(w, Send(body, first));
    SendSends(w, body, first);
    KeyKept(w1, es, NextAttempt(w, body, first).key, body);
    SendSends(AfterAll(w1, es), body, again);
  }

  /** Other content, or any content after an acknowledgement or on a form mounted anew, goes under a new key. */
  lemma NewContentNewKey(w: World, body: Body, minted: string)
    requires Inv(w) && Possible(w, Send(body, minted))
    requires w.refs.keyFor != Some(body)
    ensures NextAttempt(w, body, minted) == Attempt(minted, body) && NextAttempt(w, body, minted).key !in Minted(w) + w.foreign
  {
    SendSends(w, body, minted);
  }

  lemma ForgottenKeys(w: World, e: Event)
    requires Inv(w) && Possible(w, e) && (e.Accept? || e.Reopen?)
    ensures React(w, e).refs.keyFor == None && React(w, e).pending == None
  {
  }

  /** After an error or a timeout the analyst can submit again. */
  lemma GiveUpLetsGo(w: World, body: Body, minted: string)
    requires Possible(w, GiveUp) && minted !in Minted(w) && minted !in w.foreign
    ensures Possible(React(w, GiveUp), Send(body, minted)) && React(w, GiveUp).refs == w.refs
  {
  }

  // ----- which answer

  /** An attempt whose key has a recorded step is answered by that step, and writes nothing. */
  lemma ReplayedFromRecord(w: World, e: Event, s: Step)
    requires Inv(w) && Possible(w, e) && e.Deliver?
    requires s in StepsOf(w.db.steps, w.id) && s.key == Some(w.sent[e.n].key)
    ensures var w' := React(w, e);
      && w'.db == w.db
      && (e.n, Ok(DecisionResult(w.db.investigations[w.id], s, true))) in w'.answers
      && Records(s, w.sent[e.n].body)
  {
    StepsOfAre(w.db.steps, w.id);
    KeyFound(w.db, ToRequest(w, e), s);
    DeliveredAnswer(w, e);
  }

  /** Recorded steps stay recorded. */
  lemma {:induction false} StepsStay(w: World, es: seq<Event>, s: Step)
    requires Inv(w) && CanHappen(w, es) && s in StepsOf(w.db.steps, w.id)
    ensures Inv(AfterAll(w, es)) && s in StepsOf(AfterAll(w, es).db.steps, w.id) && AfterAll(w, es).id == w.id
    decreases |es|
  {
    if es != [] {
      StepKeeps(w, es[0]);
      match es[0] {
        case Deliver(_, _, _, _) => RowsGrow(w, ToRequest(w, es[0]));
        case Elsewhere(r) => RowsGrow(w, r);
        case _ =>
      }
      StepsStay(React(w, es[0]), es[1..], s);
    }
  }

  lemma {:induction false} SentStays(w: World, es: seq<Event>)
    requires Inv(w) && CanHappen(w, es)
    ensures w.sent <= AfterAll(w, es).sent
    decreases |es|
  {
    if es != [] {
      StepKeeps(w, es[0]);
      SentStays(React(w, es[0]), es[1..]);
    }
  }

  /**
    The analyst submits (in w), sees no answer, and some time later submits the same
    content again (in w2). If a step has been recorded for the first attempt by then,
    then whenever the second one arrives it is answered by that very step, as a replay,
    and nothing is written.
  */
  lemma RetryIsReplayed(w: World, body: Body, first: string, es: seq<Event>, again: string, later: seq<Event>, e: Event, s: Step)
    requires Inv(w) && Possible(w, Send(body, first)) && CanHappen(React(w, Send(body, first)), es) && AllKeep(es, body)
    requires var w2 := AfterAll(React(w, Send(body, first)), es);
      && s in StepsOf(w2.db.steps, w2.id) && s.key == Some(NextAttempt(w, body, first).key)
      && Possible(w2, Send(body, again)) && CanHappen(React(w2, Send(body, again)), later)
      && var w3 := AfterAll(React(w2, Send(body, again)), later);
        e.Deliver? && e.n == |w2.sent| && Possible(w3, e)
    ensures var w2 := AfterAll(React(w, Send(body, first)), es);
      var w3 := AfterAll(React(w2, Send(body, again)), later);
      && React(w3, e).db == w3.db && w3.id in w3.db.investigations
      && (e.n, Ok(DecisionResult(w3.db.investigations[w3.id], s, true))) in React(w3, e).answers
      && Records(s, body)
  {
    var w1 := React(w, Send(body, first));
    var w2 := AfterAll(w1, es);
    RetriesShareTheKey(w, body, first, es, again);
    StepKeeps(w, Send(body, first));
    EventsKeep(w1, es);
    var w2' := React(w2, Send(body, again));
    StepKeeps(w2, Send(body, again));
    SendSends(w2, body, again);
    StepsStay(w2', later, s);
    SentStays(w2', later);
    var w3 := AfterAll(w2', later);
    assert w3.sent[e.n] == w2'.sent[e.n];
    ReplayedFromRecord(w3, e, s);
  }

  /** An answer that arrives while its attempt is awaited is shown to the form, which acknowledges that attempt. */
  lemma AnswerIsAcknowledged(w: World, e: Event)
    requires Inv(w) && Possible(w, e) && e.Deliver? && w.pending == Some(e.n)
    requires Apply(w.db, ToRequest(w, e)).1.Ok?
    ensures var w' := React(w, e);
      var result := Apply(w.db, ToRequest(w, e)).1.value;
      && Possible(w', Accept(result))
      && React(w', Accept(result)).acks == w.acks + [Ack(w.sent[e.n].key, w.sent[e.n].body, result.step)]
      && Records(result.step, w.sent[e.n].body) && result.step in StepsOf(w'.db.steps, w.id)
  {
    DeliveredAnswer(w, e);
    var x: (nat, Result<DecisionResult>) := (e.n, Apply(w.db, ToRequest(w, e)).1);
    assert x in React(w, e).answers;
  }
}
