/**
  Concurrent Create, CreateVersion, ReplaceGraph, Publish and GetVersion calls
  (internal/repository/postgres/playbook.go), interleaved statement by statement under
  READ COMMITTED and aborted at any point.

  PostgreSQL is represented by what it promises: a statement sees the rows committed when
  it runs plus its own transaction's; FOR UPDATE on a version row excludes FOR UPDATE and
  FOR SHARE on it; FOR UPDATE on a playbook row excludes FOR UPDATE and the FOR KEY SHARE
  that updating a version row takes on its playbook; an insert whose id another
  transaction has pending waits.
*/
module VersionConcurrency {
  import opened Domain
  import opened Cloning
  import opened VersionTables
  import opened VersionScripts
  import opened VersionContent
  import opened VersionOverlay

  type Tid = nat

  datatype Op =
    | Replace(v: Uuid, g: Graph)
    | Publish(v: Uuid, now: Time)
    | Create(alertType: string, g: Graph, pb: Uuid, newId: Uuid)
    | NewVersionOf(pb: Uuid, source: Option<Uuid>, newId: Uuid)
    | GetVersion(v: Uuid)

  /** How far a call has got, with what it has read or written. */
  datatype Phase =
    | Begun
    | Sharing                                                   // source row locked FOR SHARE
    | HasRow(row: Version)                                      // version row read
    | HasNodes(row: Version, nodes: set<Node>)                  // then its nodes
    | HasAll(row: Version, nodes: set<Node>, edges: set<Edge>)  // then its edges
    | PbLocked(src: Option<Content>)                            // playbook locked FOR UPDATE
    | Numbered(src: Option<Content>, n: int)                    // next version number read
    | Writing(own: Content, todo: seq<Stmt>, keyed: bool, target: Content)
    | Ended

  datatype Txn = Txn(op: Op, phase: Phase)
  datatype State = State(t: Tables, txns: map<Tid, Txn>)

  /** The version a call writes. */
  function Written(op: Op): Uuid {
    match op
    case Replace(v, _) => v
    case Publish(v, _) => v
    case Create(_, _, _, newId) => newId
    case NewVersionOf(_, _, newId) => newId
    case GetVersion(_) => NIL
  }

  /** The version a call loads, when it loads one. */
  function Read(op: Op): Uuid {
    match op
    case Publish(v, _) => v
    case NewVersionOf(_, source, _) => if source.Some? then source.value else NIL
    case GetVersion(v) => v
    case _ => NIL
  }

  function PendingPlaybooks(t: Tables, op: Op): map<Uuid, string> {
    if op.Create? then t.playbooks[op.pb := op.alertType] else t.playbooks
  }

  /** The tables as the writing transaction sees them. */
  function View(t: Tables, op: Op, own: Content): Tables {
    Put(t.(playbooks := PendingPlaybooks(t, op)), Written(op), own)
  }

  // ----- locks, read off the phases

  datatype Lock =
    | VersionUpdate(v: Uuid)    // playbook_versions row, FOR UPDATE
    | VersionShare(v: Uuid)     // playbook_versions row, FOR SHARE
    | PlaybookUpdate(pb: Uuid)  // playbooks row, FOR UPDATE
    | PlaybookKey(pb: Uuid)     // playbooks row, FOR KEY SHARE

  predicate Clash(l: Lock, m: Lock) {
    match l
    case VersionUpdate(v) => m == VersionUpdate(v) || m == VersionShare(v)
    case VersionShare(v) => m == VersionUpdate(v)
    case PlaybookUpdate(pb) => m == PlaybookUpdate(pb) || m == PlaybookKey(pb)
    case PlaybookKey(pb) => m == PlaybookUpdate(pb)
  }

  function LocksOf(x: Txn): set<Lock> {
    if x.phase.Begun? || x.phase.Ended? then {}
    else
      match x.op
      case Replace(v, _) => {VersionUpdate(v)} + KeyLock(x.phase)
      case Publish(v, _) => {VersionUpdate(v)} + KeyLock(x.phase)
      case NewVersionOf(pb, source, _) =>
        (if source.Some? then {VersionShare(source.value)} else {}) +
        (if x.phase.PbLocked? || x.phase.Numbered? || x.phase.Writing? then {PlaybookUpdate(pb)} else {})
      case _ => {}
  }

  function KeyLock(p: Phase): set<Lock> {
    if p.Writing? && p.keyed then {PlaybookKey(p.own.row.playbookId)} else {}
  }

  /** No other transaction holds a lock that conflicts with l. */
  ghost predicate Grantable(s: State, x: Tid, l: Lock) {
    forall y, m :: y in s.txns && y != x && m in LocksOf(s.txns[y]) ==> !Clash(l, m)
  }

  // ----- statements

  datatype Action =
    | Begin(tid: Tid, op: Op)
    | LockVersion(tid: Tid)
    | ShareVersion(tid: Tid)
    | ReadRow(tid: Tid)
    | ReadNodes(tid: Tid)
    | ReadEdges(tid: Tid)
    | LockPlaybook(tid: Tid)
    | ReadNumber(tid: Tid, n: int)
    | StartWrite(tid: Tid, listing: Graph, minted: seq<Uuid>, copy: Graph, names: map<Uuid, Uuid>)
    | Statement(tid: Tid)
    | Commit(tid: Tid)
    | Abort(tid: Tid)

  /** The ids that the generators return for a new version or playbook have never been used. */
  ghost predicate FreshIds(s: State, op: Op) {
    && (op.Create? || op.NewVersionOf? ==> op.newId !in s.t.versions)
    && (op.Create? ==> op.pb !in s.t.playbooks)
    && forall y :: y in s.txns ==> IdsDiffer(op, s.txns[y].op)
  }

  predicate IdsDiffer(a: Op, b: Op) {
    && ((a.Create? || a.NewVersionOf?) && (b.Create? || b.NewVersionOf?) ==> a.newId != b.newId)
    && (a.Create? && b.Create? ==> a.pb != b.pb)
  }

  /** Statement stmt would have to wait for no other transaction. */
  ghost predicate NoWait(s: State, x: Tid, stmt: Stmt)
    requires x in s.txns && s.txns[x].phase.Writing?
  {
    && (TakesKey(s.txns[x], stmt) ==> Grantable(s, x, PlaybookKey(s.txns[x].phase.own.row.playbookId)))
    && (forall y :: y in s.txns && y != x && s.txns[y].phase.Writing? ==> !PendingId(s.txns[y].phase.own, stmt))
  }

  /** Updating a version row locks its playbook FOR KEY SHARE, unless that is already held. */
  predicate TakesKey(x: Txn, stmt: Stmt) {
    x.phase.Writing? && !x.phase.keyed && (x.op.Replace? || x.op.Publish?) &&
    (stmt.ClearRoot? || stmt.PutRoot? || stmt.MarkPublished?)
  }

  predicate PendingId(own: Content, stmt: Stmt) {
    (stmt.AddNode? && exists n :: n in own.nodes && n.id == stmt.node.id) ||
    (stmt.AddEdge? && exists e :: e in own.edges && e.id == stmt.edge.id)
  }

  ghost predicate Enabled(s: State, a: Action) {
    if a.Begin? then a.tid !in s.txns && FreshIds(s, a.op)
    else if a.tid !in s.txns then false
    else
      var op, p := s.txns[a.tid].op, s.txns[a.tid].phase;
      match a
      case LockVersion(x) => (op.Replace? || op.Publish?) && p.Begun? && Grantable(s, x, VersionUpdate(op.v))
      case ShareVersion(x) => op.NewVersionOf? && op.source.Some? && p.Begun? && Grantable(s, x, VersionShare(op.source.value))
      case ReadRow(x) => (op.NewVersionOf? && p.Sharing?) || (op.GetVersion? && p.Begun?)
      case ReadNodes(x) => p.HasRow? && !op.Replace?
      case ReadEdges(x) => p.HasNodes?
      case LockPlaybook(x) =>
        op.NewVersionOf? && (if op.source.Some? then p.HasAll? else p.Begun?) && Grantable(s, x, PlaybookUpdate(op.pb))
      case ReadNumber(x, n) => p.PbLocked? && op.NewVersionOf? && IsNextNumber(NumbersOf(s.t, op.pb), n)
      case StartWrite(x, listing, minted, copy, names) =>
        || (op.Replace? && p.HasRow?) || (op.Publish? && p.HasAll?) || (op.Create? && p.Begun?)
        || (p.Numbered? && op.NewVersionOf? && (p.src.Some? ==>
              Lists(listing, p.src.value) && NoDuplicates(minted) && Unused(s.t, minted) && Cloned(listing, minted, copy, names)))
      case Statement(x) => p.Writing? && p.todo != [] && NoWait(s, x, p.todo[0])
      case Commit(x) => p.Writing? && p.todo == []
      case Abort(x) => !p.Ended?
      case Begin(_, _) => false
  }

  function Goto(s: State, x: Tid, p: Phase): State
    requires x in s.txns
  {
    s.(txns := s.txns[x := s.txns[x].(phase := p)])
  }

  /** What a writing transaction starts from, runs, and is to end with. */
  ghost function FirstWrite(t: Tables, x: Txn, copy: Graph): Phase
    requires x.op.Replace? ==> x.phase.HasRow? && x.op.v in t.versions
    requires x.op.Publish? ==> x.phase.HasAll?
    requires x.op.NewVersionOf? ==> x.phase.Numbered?
  {
    match x.op
    case Replace(v, g) => Writing(ContentOf(t, v), ReplaceScript(g), false, Holding(x.phase.row, g))
    case Publish(v, now) =>
      var c := Content(x.phase.row, x.phase.nodes, x.phase.edges);
      if PublishableContent(c) then Writing(c, [MarkPublished(now)], false, LocalExec(c, MarkPublished(now))) else Ended
    case Create(_, g, pb, newId) =>
      var row := NewVersion(newId, pb, 1);
      Writing(Content(row, {}, {}), WriteScript(g), false, Holding(row, g))
    case NewVersionOf(pb, _, newId) =>
      var row := NewVersion(newId, pb, x.phase.n);
      if x.phase.src == None then Writing(Content(row, {}, {}), [], false, Content(row, {}, {}))
      else Writing(Content(row, {}, {}), WriteScript(copy), false, Holding(row, copy))
    case GetVersion(_) => Ended
  }

  ghost function Do(s: State, a: Action): State
    requires Enabled(s, a)
  {
    if a.Begin? then s.(txns := s.txns[a.tid := Txn(a.op, Begun)])
    else
      var x := a.tid;
      var op, p := s.txns[x].op, s.txns[x].phase;
      match a
      case LockVersion(_) => Goto(s, x, if IsDraft(s.t, op.v) then HasRow(s.t.versions[op.v]) else Ended)
      case ShareVersion(_) => Goto(s, x, if op.source.value in s.t.versions then Sharing else Ended)
      case ReadRow(_) => Goto(s, x, if Read(op) in s.t.versions then HasRow(s.t.versions[Read(op)]) else Ended)
      case ReadNodes(_) => Goto(s, x, HasNodes(p.row, NodesOf(s.t, Read(op))))
      case ReadEdges(_) => Goto(s, x, HasAll(p.row, p.nodes, EdgesOf(s.t, Read(op))))
      case LockPlaybook(_) =>
        if op.pb !in s.t.playbooks || (op.source.Some? && p.row.playbookId != op.pb) then Goto(s, x, Ended)
        else Goto(s, x, PbLocked(if op.source.Some? then Some(Content(p.row, p.nodes, p.edges)) else None))
      case ReadNumber(_, n) => Goto(s, x, Numbered(p.src, n))
      case StartWrite(_, _, _, copy, _) =>
        if op.Replace? && op.v !in s.t.versions then Goto(s, x, Ended)
        else Goto(s, x, FirstWrite(s.t, s.txns[x], copy))
      case Statement(_) =>
        var o := Exec(View(s.t, op, p.own), Written(op), p.todo[0]);
        if o.Violated? then Goto(s, x, Ended)
        else Goto(s, x, Writing(ContentOf(o.tables, Written(op)), p.todo[1..], p.keyed || TakesKey(s.txns[x], p.todo[0]), p.target))
      case Commit(_) => Goto(s, x, Ended).(t := View(s.t, op, p.own))
      case Abort(_) => Goto(s, x, Ended)
  }

  // ----- the invariant

  /** The target of a clone is a copy of the content that was read. */
  ghost predicate CopyOf(src: Content, target: Content) {
    exists g, h, names :: Lists(g, src) && Lists(h, target) && IsCopy(g, h, names) && EdgeIds(g.edges) !! EdgeIds(h.edges) &&
      NodeIds(g.nodes) !! NodeIds(h.nodes)
  }

  ghost predicate SourceHeld(t: Tables, op: Op, src: Option<Content>)
    requires op.NewVersionOf?
  {
    if op.source == None then src == None
    else op.source.value in t.versions && src == Some(ContentOf(t, op.source.value)) && src.value.row.playbookId == op.pb
  }

  /** What a transaction has read under a lock, or read of a published version, still holds. */
  ghost predicate ReadsHold(t: Tables, x: Txn) {
    var p := x.phase;
    match x.op
    case Replace(v, _) => p.HasRow? ==> IsDraft(t, v) && p.row == t.versions[v]
    case Publish(v, _) =>
      (p.HasRow? || p.HasNodes? || p.HasAll? ==> IsDraft(t, v) && p.row == t.versions[v]) &&
      (p.HasNodes? || p.HasAll? ==> p.nodes == NodesOf(t, v)) && (p.HasAll? ==> p.edges == EdgesOf(t, v))
    case NewVersionOf(pb, source, _) =>
      (p.Sharing? || p.HasRow? || p.HasNodes? || p.HasAll? ==> source.Some? && source.value in t.versions) &&
      (p.HasRow? || p.HasNodes? || p.HasAll? ==> p.row == t.versions[source.value]) &&
      (p.HasNodes? || p.HasAll? ==> p.nodes == NodesOf(t, source.value)) &&
      (p.HasAll? ==> p.edges == EdgesOf(t, source.value)) &&
      (p.PbLocked? || p.Numbered? ==> SourceHeld(t, x.op, p.src)) &&
      (p.Numbered? ==> IsNextNumber(NumbersOf(t, pb), p.n)) &&
      (p.PbLocked? || p.Numbered? || p.Writing? ==> pb in t.playbooks)
    case GetVersion(v) =>
      (p.HasRow? || p.HasNodes? || p.HasAll?) && p.row.status != Draft ==>
        && v in t.versions && t.versions[v] == p.row
        && (p.HasNodes? || p.HasAll? ==> p.nodes == NodesOf(t, v))
        && (p.HasAll? ==> p.edges == EdgesOf(t, v))
    case Create(_, _, _, _) => true
  }

  /** The row a writing transaction is about, and what it is to end with. */
  ghost predicate WritesRight(t: Tables, op: Op, own: Content, target: Content) {
    match op
    case Replace(v, g) =>
      IsDraft(t, v) && own.row.(root := None) == t.versions[v].(root := None) && target == Holding(t.versions[v], g)
    case Publish(v, now) =>
      && IsDraft(t, v) && PublishableContent(ContentOf(t, v))
      && SameNumber(own.row, t.versions[v])
      && target == LocalExec(ContentOf(t, v), MarkPublished(now))
    case Create(_, g, pb, newId) =>
      own.row.(root := None) == NewVersion(newId, pb, 1) && target == Holding(NewVersion(newId, pb, 1), g)
    case NewVersionOf(pb, source, newId) =>
      && IsNextNumber(NumbersOf(t, pb), own.row.number)
      && own.row.(root := None) == NewVersion(newId, pb, own.row.number)
      && target.row.(root := None) == own.row.(root := None)
      && ClonesSource(t, op, target)
    case GetVersion(_) => false
  }

  ghost predicate ClonesSource(t: Tables, op: Op, target: Content)
    requires op.NewVersionOf?
  {
    if op.source == None then target.row.root == None && target.nodes == {} && target.edges == {}
    else BelongsTo(t, op.source.value, op.pb) && CopyOf(ContentOf(t, op.source.value), target)
  }

  /** The pending rows fit the committed ones, and the remaining statements lead to the target. */
  ghost predicate WritesFit(t: Tables, x: Txn) {
    x.phase.Writing? ==>
      && Consistent(View(t, x.op, x.phase.own))
      && LocalRun(x.phase.own, x.phase.todo) == x.phase.target
      && WritesRight(t, x.op, x.phase.own, x.phase.target)
  }

  ghost predicate Inv(s: State) {
    && Consistent(s.t)
    && (forall x {:trigger ReadsHold(s.t, s.txns[x])} :: x in s.txns ==> ReadsHold(s.t, s.txns[x]))
    && (forall x {:trigger WritesFit(s.t, s.txns[x])} :: x in s.txns ==> WritesFit(s.t, s.txns[x]))
    && LocksExclude(s)
    && IdsFresh(s)
    && (forall x, y {:trigger PendingApart(s, x, y)} :: x in s.txns && y in s.txns && x != y ==> PendingApart(s, x, y))
    && (forall v {:trigger PublishedOk(s.t, v)} :: v in s.t.versions ==> PublishedOk(s.t, v))
    && (forall pb {:trigger NumbersOk(s.t, pb)} :: pb in s.t.playbooks ==> NumbersOk(s.t, pb))
  }

  ghost predicate PendingApart(s: State, x: Tid, y: Tid)
    requires x in s.txns && y in s.txns
  {
    s.txns[x].phase.Writing? && s.txns[y].phase.Writing? ==> IdsApart(s.txns[x].phase.own, s.txns[y].phase.own)
  }

  ghost predicate PublishedOk(t: Tables, v: Uuid)
    requires v in t.versions
  {
    t.versions[v].status == Published ==> PublishableContent(ContentOf(t, v))
  }

  /** The versions of a playbook are numbered exactly 1..n. */
  ghost predicate NumbersOk(t: Tables, pb: Uuid) {
    exists n: nat :: Contiguous(t, pb, n)
  }

  ghost predicate LocksExclude(s: State) {
    forall x, y, l, m :: x in s.txns && y in s.txns && x != y && l in LocksOf(s.txns[x]) && m in LocksOf(s.txns[y]) ==>
      !Clash(l, m)
  }

  /** Ids announced for new rows are unused until their transaction commits. */
  ghost predicate IdsFresh(s: State) {
    && (forall x, y :: x in s.txns && y in s.txns && x != y ==> IdsDiffer(s.txns[x].op, s.txns[y].op))
    && (forall x :: x in s.txns && !s.txns[x].phase.Ended? && (s.txns[x].op.Create? || s.txns[x].op.NewVersionOf?) ==>
          s.txns[x].op.newId !in s.t.versions)
    && (forall x :: x in s.txns && !s.txns[x].phase.Ended? && s.txns[x].op.Create? ==> s.txns[x].op.pb !in s.t.playbooks)
  }
}
