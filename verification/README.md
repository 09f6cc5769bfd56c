# Alert-investigation playbooks: a verified model

The repository lets a designer author a *playbook* (a directed graph of decision and
terminal nodes whose edges are labelled choices), publishes immutable versions of it, and
lets analysts walk a published version to investigate an alert. This project models the
parts on which its guarantees rest, and proves those guarantees for all inputs, all runs
and all interleavings:

- **the publish-time validator**: the three-colour depth-first search with its explicit
  stack, the breadth-first search, the degree and kind rules, the sorted report;
- **the transition rule and the decision transaction**: once as an atomic step on rows,
  once as a class whose methods are the source's statements, once as a machine of
  concurrent transactions that is proved to refine the atomic step;
- **the version store**: the tables with every foreign key, CHECK and UNIQUE evaluated
  after every statement, the repository as a class, and a machine in which create, clone,
  replace, publish and unlocked reads interleave statement by statement under row locks;
- **both stores together**, with the service's `Start` and `Get`;
- **the transforms around the engine**: cloning, choice ordering, the report overlay, the
  authoring form's serializer, the server's input checks, and the decision form's
  idempotency keys over a network that loses, delays and duplicates messages.

`dafny verify dfyconfig.toml` checks everything.

## Reading guide

| files | what they hold |
|---|---|
| `Domain`, `Distinct`, `StableSort`, `Digraph` | the shared entities; stable sorting and its uniqueness; walks and cycles |
| `CycleSearch`, `SearchPaths`, `SearchHistory`, `CycleDetection` | the cycle search: step by step, said without the search, and the proof that the two agree |
| `PublishRules`, `GraphValidation` | the publish-time rules, and the validator |
| `EvadingPaths`, `CycleCoverage`, `MissedCycleNodes` | when the cycle report is complete, and a graph on which it is not |
| `Engine`, `Choices` | `Start`, `Decide`, whole runs; what is offered |
| `DecisionStore`, `DecisionHistory`, `DecisionOutcome` | the decision transaction, its histories, and the table of its outcomes |
| `DecisionConcurrency`, `DecisionRaces` | its interleavings, who wins, and progress |
| `VersionTables`, `VersionScripts`, `VersionContent`, `VersionStore` | tables, statement scripts, what is loaded of a version, the playbook repository |
| `Cloning`, `CloneReports`, `CopyRuns` | `cloneGraph`: a copy that validates and plays the same |
| `VersionOverlay`, `VersionConcurrency`, `VersionInvariant`, `VersionTheorems`, `VersionProgress` | concurrent version-store calls |
| `InvestigationService` | both stores and the service |
| `PathOverlay`, `OverlayMeaning` | the report overlay, of runs and of any path |
| `DraftText`, `DraftSerialization`, `DraftMeaning`, `GraphInput` | the authoring form and the server's input checks |
| `DecisionForm`, `FormRetries` | the decision form and the network |

UUIDs are natural numbers with 0 for the nil UUID, so that equality, the nil test and the
textual order are kept; a JSON value is its canonical text, of which only being an object
or not matters; times are opaque.
A precondition such as "this id is unused" stands for what an id generator returns.

Where the code and its comments disagree, the code is modelled. The comment on
`detectCycles` (internal/domain/playbook/graph.go:125-127) says that the nodes that
participate in a cycle are reported individually. The search can miss one: it flags only
what is on its stack when it closes a loop. What it reports is this:

- in a given order of nodes and edges, exactly the nodes on the loops that links close
  over first paths (`GraphValidation.Validate`, `CycleDetection.FlagCycles`). The *first
  path* to a node starts at the first node that leads there and takes the earliest choice
  at each fork; no search is needed to say which path that is;
- in every order, exactly the nodes at which no evading path ends
  (`CycleCoverage.ReportedIffNotEvaded`), so the comment holds of a graph in every order
  if and only if no evading path ends on a cycle (`CycleCoverage.CyclesReportedIff`);
- in particular exactly the nodes on cycles, if no link lies on two repetition-free cycles
  (`CycleCoverage.ApartCyclesReported`).

`MissedCycleNodes` has a graph that a draft can hold and of whose cycles one node is not
reported. Likewise the form and the database disagree about an empty resolution of a
terminal node (`DraftSerialization.EmptyResolutionDisagreement`), and
`DraftSerialization.ReloadAcceptedIff` says exactly which stored graphs the form accepts.

## Model

| member | source | states |
|---|---|---|
| CycleDetection.FlagCycles | internal/domain/playbook/graph.go:128-174 | the search ends, and flags exactly the nodes on loops that links close over first paths; each is on a directed cycle; every directed cycle, orphaned components included, shares an edge with a repetition-free cycle that is flagged all round; and the flags are those of the step-by-step search |
| CycleDetection.BackEdgeFlags | internal/domain/playbook/graph.go:159-171 | what a back edge flags lies on a loop it closes over the stack, from the target's frame to the top |
| CycleDetection.CycleHasBackLink | internal/domain/playbook/graph.go:138-174 | when everything is black, finishing times cannot fall all the way round a cycle, so each has a link that closed a flagged loop |
| CycleDetection.FlagsAreLoops | internal/domain/playbook/graph.go:138-174 | the flags of a finished search, without the search: the nodes on loops closed over first paths |
| SearchHistory.PathIsFirst | internal/domain/playbook/graph.go:143-173 | the search comes to each node along its first path: from the first node that leads there, by the earliest choice at each fork |
| SearchPaths.FirstPathUnique | internal/domain/playbook/graph.go:143-173 | a node has one first path |
| CycleCoverage.ReportedIffNotEvaded | internal/domain/playbook/graph.go:125-184 | a node is reported however nodes and edges are ordered exactly if no evading path ends at it: a path from whose end every way back passes beyond dead ends of the path |
| CycleCoverage.CyclesReportedIff | internal/domain/playbook/graph.go:125-184 | so every node of every cycle is reported in every order exactly if no evading path ends on a cycle |
| CycleCoverage.ApartCyclesReported | internal/domain/playbook/graph.go:125-184 | if no link lies on two repetition-free cycles, the report names exactly the nodes on cycles |
| EvadingPaths.UnloopedIsEvading | internal/domain/playbook/graph.go:128-174 | the first path to a node that is not flagged is evading |
| EvadingPaths.EvadingUnlooped | internal/domain/playbook/graph.go:128-174 | with its dead ends before it, the end of an evading path is not flagged |
| CycleDetection.SearchFrom | internal/domain/playbook/graph.go:143-173 | the inner loop terminates from any white start, keeps colours, stack and finishing ranks in agreement, and is the finished run of the pass function |
| CycleDetection.FollowEdge | internal/domain/playbook/graph.go:152-172 | one pass over an edge of the top frame keeps the invariant, in each of the three colours, and makes progress |
| CycleDetection.FlagLoop | internal/domain/playbook/graph.go:162-171 | a back edge flags exactly the stack from the target's frame to the top |
| CycleSearch.FlaggedOnce | internal/domain/playbook/graph.go:128-174 | node order and neighbour order determine the flagged set |
| GraphValidation.DetectCycles | internal/domain/playbook/graph.go:128-184 | lists the flagged nodes in node order; the list is empty exactly when the whole graph is acyclic |
| MissedCycleNodes.CycleNodeMissed | internal/domain/playbook/graph.go:125-184 | a concrete graph with a node on a cycle that no report names |
| MissedCycleNodes.LoopsStorable | internal/repository/postgres/playbook.go:209-237 | that graph meets every constraint, and a replacement stores it |
| MissedCycleNodes.LoopsLoaded | internal/repository/postgres/playbook.go:445-488 | whatever the collation, it is loaded back in just that order |
| MissedCycleNodes.MissedInDraft | internal/repository/postgres/playbook.go:248-283 | so the report on the stored rows of a draft misses a node of a cycle |
| GraphValidation.DetectUnreachable | internal/domain/playbook/graph.go:187-209 | lists, in node order, exactly the nodes that no path from the root reaches |
| GraphValidation.CollectEdges | internal/domain/playbook/graph.go:66-82 | dangling edges are reported in order, and the adjacency and degree maps hold exactly the resolving edges |
| GraphValidation.EmptyIffPublishable | internal/domain/playbook/graph.go:50-123 | a report is empty exactly when the publish-time rules hold |
| GraphValidation.ReportMembers | internal/domain/playbook/graph.go:50-123 | membership in the report, section by section, is breaking a rule |
| GraphValidation.ReportDistinct | internal/domain/playbook/graph.go:50-123 | with unique ids nothing is reported twice |
| GraphValidation.IssueOrder | internal/domain/playbook/graph.go:213-230 | the report's order, by reason text and then id, is a total preorder |
| GraphValidation.ReportInOrder | internal/domain/playbook/graph.go:213-230 | a report goes reason by reason in the order of their names, and within a reason by the ids |
| GraphValidation.Validate | internal/domain/playbook/graph.go:50-123 | nil exactly for a publishable graph; apart from cycles exactly the broken rules, each once; the cycle issues name exactly the nodes on loops closed over first paths, each on a cycle, and some repetition-free cycle sharing an edge with any given cycle all round; sorted by reason then id |
| StableSort.SortPermutes | internal/domain/playbook/graph.go:224-229 | stable sorting permutes |
| StableSort.SortSorts | internal/domain/playbook/graph.go:224-229 | stable sorting sorts |
| StableSort.StableSortUnique | internal/domain/playbook/graph.go:224-229 | the sorted arrangement that keeps ties in order is unique |
| Engine.NeverStuck | internal/domain/investigation/decision.go:55-87 | an investigation in progress on a published graph has an edge that is accepted at any time |
| Engine.AcceptedIffLeaves | internal/domain/investigation/decision.go:55-73 | an edge is accepted exactly when it leaves the current node of an investigation in progress |
| Engine.SubmitMoves | internal/domain/investigation/decision.go:55-87 | what is accepted moves along one edge of the graph and keeps identity, alert, version and start time |
| Engine.StartStands | internal/domain/investigation/decision.go:19-40 | Start puts the row on the root, about the given alert and version, since now; completed now exactly if the root is terminal |
| Engine.RunTheorem | internal/domain/investigation/decision.go:19-87 | every run from Start visits no node twice, has fewer steps than nodes, can continue exactly while in progress, and ends with a non-empty resolution |
| Engine.StaleChoicesRejected | internal/domain/investigation/decision.go:61-68 | once a run has left a node, no edge of it is ever accepted again |
| Engine.FindNode | internal/domain/playbook/playbook.go:115-122 | the linear scan returns the first node with the id, or none |
| Choices.SinkEdge | internal/domain/playbook/playbook.go:147-159 | the inner loop inserts the element into the sorted prefix and leaves the rest |
| Choices.SortEdges | internal/domain/playbook/playbook.go:147-159 | the in-place insertion sort is the stable sort by order, then label |
| Choices.OutgoingEdges | internal/domain/playbook/playbook.go:136-145 | the choices of a node, sorted |
| Choices.ChoicesAre | internal/domain/playbook/playbook.go:136-159 | sorted, and exactly the node's edges with their multiplicity |
| Choices.ChoicesInOrder | internal/domain/playbook/playbook.go:147-159 | sort orders never fall along the list, nor labels among equal ones |
| Choices.ChoicesCanonical | internal/domain/playbook/playbook.go:136-159 | with per-node unique labels the choices come in one order, whatever the storage order |
| Choices.OfferedIffAccepted | internal/service/investigationservice/service.go:307-316 | an edge is offered exactly when the transition rule accepts it |
| Choices.OfferedWhileInProgress | internal/service/investigationservice/service.go:307-316 | something is offered exactly while in progress |
| DecisionStore.InvestigationRepository.ApplyDecision | internal/repository/postgres/investigation.go:116-187 | the statements in the source's order, with rollback, compute the atomic decision step: rows and answer, which the next two rows spell out |
| DecisionOutcome.DecisionTable | internal/repository/postgres/investigation.go:116-187 | the answer read off the rows: not found, key reused, replayed, completed, invalid transition and accepted, each exactly when; a replay exactly when edge, actor, rationale and evidence are those recorded under the key |
| DecisionOutcome.AcceptedWrites | internal/repository/postgres/investigation.go:157-180 | every field of the step and of the row that an accepted decision writes: evidence as given, or NULL when there is none; completed at the request's time exactly on a terminal node |
| DecisionOutcome.SubmitTable | internal/domain/investigation/decision.go:55-68 | completed exactly when done, invalid transition exactly when in progress and no edge with that id leaves the current node |
| DecisionOutcome.InsertExact | migrations/000001_init_schema.up.sql:184-232 | inserting a step is refused exactly if it would break UNIQUE or a foreign key |
| DecisionOutcome.InsertErrors | internal/repository/postgres/postgres.go:103-147 | which error each refusal gives |
| DecisionOutcome.UpdateExact | migrations/000001_init_schema.up.sql:148-175 | replacing a row is refused exactly if it would break the completion CHECK or the node reference |
| DecisionStore.InvestigationRepository.Create | internal/repository/postgres/investigation.go:40-54 | inserts exactly a row that passes its constraints |
| DecisionHistory.ApplyEffect | internal/repository/postgres/investigation.go:116-187 | a decision writes nothing, or answers from a step that records just this request, or appends one step with every field of the request and replaces one row; only four errors are possible |
| DecisionHistory.InsertSucceeds | internal/repository/postgres/postgres.go:109-115 | the step that is about to be inserted breaks no UNIQUE and no foreign key |
| DecisionHistory.AdvanceWrites | internal/repository/postgres/investigation.go:157-180 | an accepted decision extends the replayable history by one step |
| DecisionHistory.ApplyKeeps | internal/repository/postgres/investigation.go:157-180 | steps numbered 1..n, a route from the root, replaying to node, status and resolution, distinct keys: kept by every decision |
| DecisionHistory.ExecKeeps | internal/repository/postgres/investigation.go:116-187 | the same over every history, and every step list extends the earlier one |
| DecisionHistory.NodesLeftOnce | internal/repository/postgres/investigation.go:109-115 | no two steps of an investigation leave the same node, and there are fewer steps than nodes |
| DecisionHistory.FirstDecisionWins | internal/repository/postgres/investigation.go:109-115 | of decisions from one node, with keys or without, only the first to run is applied, for ever |
| DecisionHistory.RetriesRecognised | internal/repository/postgres/investigation.go:129-155 | a keyed request is answered from its record for ever after, across later decisions and completion, and never writes again: by the step exactly if edge, actor, rationale and evidence are equal, else as key reused |
| DecisionHistory.ReplaysAreInvisible | internal/repository/postgres/investigation.go:129-155 | deleting every replayed request from any history changes no row and no other answer |
| DecisionHistory.BeginKeeps | internal/service/investigationservice/service.go:121-160 | starting on a published version is accepted by the constraints and keeps soundness |
| DecisionHistory.ReadReplays | internal/repository/postgres/investigation.go:56-107 | what GetWithSteps returns always replays from the root to its current node |
| DecisionConcurrency.NoClash | internal/repository/postgres/investigation.go:296-326 | under the row lock no pending row of another transaction can collide with an insert |
| DecisionConcurrency.DoRefines | internal/repository/postgres/investigation.go:116-187 | each statement of each transaction stutters or is the atomic decision step |
| DecisionConcurrency.Serialisable | internal/repository/postgres/investigation.go:116-187 | every interleaving gives the rows and answers of atomic decisions, per investigation in lock order |
| DecisionConcurrency.ConcurrentDecisions | internal/repository/postgres/investigation.go:116-187 | from sound rows, every interleaving with aborts stays sound, serial, append-only, and shows only the four domain errors |
| DecisionConcurrency.NoConstraintErrors | internal/repository/postgres/postgres.go:109-115 | the unique violation on the sequence number is unreachable |
| DecisionRaces.FirstLockWins | internal/repository/postgres/investigation.go:109-115 | in every interleaving, of the decisions at one node only the first accepted one, in the order in which the row lock was taken, records a step |
| DecisionRaces.RunsToItsEnd | internal/repository/postgres/investigation.go:116-187 | a transaction that holds its row, or whose row is free, can run to its end, and then gives the answer and leaves the rows of ApplyDecision |
| DecisionConcurrency.LockHolderRuns | internal/repository/postgres/investigation.go:193-201 | some transaction on the investigation can always run its next statement |
| VersionTables.ExecKeeps | migrations/000001_init_schema.up.sql:25-116 | a single statement is refused or leaves every constraint true |
| VersionTables.ExecTouchesOnly | internal/repository/postgres/playbook.go:350-408 | a statement changes rows of its own version only |
| VersionScripts.ClearExact | internal/repository/postgres/playbook.go:350-361 | root, then edges, then nodes can always be cleared |
| VersionScripts.WriteExact | internal/repository/postgres/playbook.go:371-408 | nodes, edges, root run without a violation exactly for a storable graph, and store it |
| VersionScripts.ReplaceExact | internal/repository/postgres/playbook.go:209-237 | no statement of a replacement is refused exactly for a storable graph; the version then holds it and no other version has changed |
| VersionStore.PlaybookRepository.WriteGraph | internal/repository/postgres/playbook.go:371-408 | runs the write script statement by statement |
| VersionStore.PlaybookRepository.ClearGraph | internal/repository/postgres/playbook.go:350-361 | leaves the version without root, edges and nodes |
| VersionStore.PlaybookRepository.LoadGraph | internal/repository/postgres/playbook.go:445-488 | the stored rows, each once, ordered by title and id, and by sort order, label and id, under any collation |
| VersionContent.LoadsOnce | internal/repository/postgres/playbook.go:445-488 | what is loaded is determined by what is stored |
| VersionContent.LoadsInOrder | internal/repository/postgres/playbook.go:445-488 | titles never fall along the nodes, nor ids in one title; sort orders, labels and ids likewise along the edges |
| VersionStore.PlaybookRepository.ReplaceGraph | internal/repository/postgres/playbook.go:209-237 | succeeds exactly on a draft for a storable graph; returns it up to order; otherwise which error, and nothing changes |
| VersionStore.PlaybookRepository.Publish | internal/repository/postgres/playbook.go:248-283 | succeeds exactly on a draft whose stored graph is publishable, changes only its status and returns it as loaded; otherwise which error, and for a draft the full report on its stored graph, cycles included |
| VersionStore.PlaybookRepository.CreateVersion | internal/repository/postgres/playbook.go:121-196 | the next number, an empty draft or a copy of the source, returned as loaded, every other version unchanged; otherwise which error |
| VersionStore.PlaybookRepository.NextNumber | internal/repository/postgres/playbook.go:307-314 | one above the highest number, 1 if there is none |
| VersionStore.PlaybookRepository.Create | internal/repository/postgres/playbook.go:29-60 | playbook, version 1 and graph, or nothing |
| VersionContent.ReloadsSame | internal/repository/postgres/playbook.go:445-488 | reloading a stored graph gives the same root and a permutation of its nodes and edges |
| VersionContent.CloneStorable | internal/repository/postgres/playbook.go:166-178 | a clone of a stored graph under unused ids shares no id with it and can be stored |
| VersionOverlay.ExecOverPending | internal/repository/postgres/playbook.go:350-408 | a statement over committed rows and the transaction's own pending rows has the effect it has on the pending rows alone |
| VersionOverlay.TwoPuts | internal/repository/postgres/playbook.go:209-283 | pending rows of two transactions on different versions fit together once each fits the committed rows |
| Cloning.CloneGraph | internal/repository/postgres/playbook.go:492-517 | the two loops rename nodes, edges and references by position, also in graphs with dangling references or repeated ids |
| Cloning.ClonedEdge | internal/repository/postgres/playbook.go:492-517 | the copy of an edge keeps all but its id and ends; an end that is no node becomes nil |
| Cloning.CloneIsCopy | internal/repository/postgres/playbook.go:492-517 | a clone of a reference-closed graph is a copy sharing no node or edge id |
| Cloning.CopyViolates | internal/repository/postgres/playbook.go:492-517 | a copy breaks a publish rule at the renamed node exactly when the source does |
| Cloning.CopyPublishable | internal/repository/postgres/playbook.go:492-517 | a copy is publishable exactly when its source is |
| Cloning.CopyBisimilar | internal/repository/postgres/playbook.go:492-517 | a label sequence leads from u to v in the source exactly when it does in the copy, to the same kind and resolution |
| CopyRuns.CopyRunsAlike | internal/domain/investigation/decision.go:19-87 | investigations started on a published version and on a published copy of it, given the same choices, both reject with one error or stand at a node and its copy with equal status, times and resolution |
| CloneReports.SearchesInStep | internal/domain/playbook/graph.go:128-174 | the depth-first search of a renamed graph runs in step with that of the graph |
| CloneReports.CopyMarks | internal/domain/playbook/graph.go:128-174 | the searches of a graph and its copy flag the same nodes, renamed |
| CloneReports.CopyReport | internal/repository/postgres/playbook.go:492-517 | the validator's issues about a clone are, as a multiset, the renamed issues about its source |
| VersionInvariant.DoExcludes | internal/repository/postgres/playbook.go:318-346 | conflicting row locks are never held together |
| VersionInvariant.StatementKeeps | internal/repository/postgres/playbook.go:350-408 | a statement of one transaction keeps the invariant of all |
| VersionInvariant.CommitKeeps | internal/repository/postgres/playbook.go:209-283 | a commit keeps it, with every other transaction's reads and pending rows |
| VersionInvariant.DoKeeps | internal/repository/postgres/playbook.go:121-283 | so does every step of every interleaving |
| VersionTheorems.PublishedForever | internal/repository/postgres/playbook.go:209-283 | in every interleaving a published version satisfies the rules and never changes again, and each playbook is numbered exactly 1..n |
| VersionTheorems.CreateCommits | internal/repository/postgres/playbook.go:29-60 | creating commits the playbook with its alert type, and draft version 1 with exactly the given graph |
| VersionTheorems.EmptyVersionCommits | internal/repository/postgres/playbook.go:121-196 | a new version without a source is an empty draft under the next number |
| VersionTheorems.PublishCommits | internal/repository/postgres/playbook.go:248-283 | publishing flips the status of exactly the graph that was validated |
| VersionTheorems.ReplaceCommits | internal/repository/postgres/playbook.go:209-237 | a replacement commits exactly the given graph, on a draft |
| VersionTheorems.CloneCommits | internal/repository/postgres/playbook.go:134-178 | a clone commits a copy of the graph its source holds at that instant, under the next number |
| VersionTheorems.CloneReadsOneInstant | internal/repository/postgres/playbook.go:134-151 | the reads of a clone's source do not tear |
| VersionTheorems.UnlockedReadOfPublished | internal/repository/postgres/playbook.go:428-488 | three unlocked reads that began with a published row are its frozen, playable graph |
| VersionTheorems.NoDeadlock | internal/repository/postgres/playbook.go:125-133 | no cycle of waits over version and playbook rows, and no chain of more than three transactions |
| VersionProgress.ReplaceAlone | internal/repository/postgres/playbook.go:209-237 | a replacement that nothing interferes with runs to its end: stored on a draft that can hold it, else no change |
| VersionProgress.PublishAlone | internal/repository/postgres/playbook.go:248-283 | so does a publication: published if a draft and publishable, else no change |
| VersionProgress.CreateAlone | internal/repository/postgres/playbook.go:29-60 | so does a creation: playbook, version and graph, or no change |
| VersionProgress.NewVersionAlone | internal/repository/postgres/playbook.go:121-196 | so does an empty new version |
| VersionProgress.CloneAlone | internal/repository/postgres/playbook.go:121-196 | so does a clone: the copy as a draft under the next number, if the source belongs to the playbook |
| InvestigationService.StartOutcome | internal/service/investigationservice/service.go:82-140 | Start succeeds exactly on a published version whose playbook has the alert's type, and which error otherwise; the row is about that alert, on that version, at its root, since now; "no usable root" and a missing playbook are unreachable for a published version |
| InvestigationService.StartIsStored | internal/service/investigationservice/service.go:82-140 | a start that succeeds stores that row, and through every later run it keeps its alert, version and start time |
| InvestigationService.SysDoKeeps | internal/service/investigationservice/service.go:82-236 | every step of either store keeps the invariants of both |
| InvestigationService.EveryMoment | internal/service/investigationservice/service.go:82-236 | at every moment of every run from empty stores: published versions are publishable and frozen, numbers are 1..n, and every investigation replays on a published, playable version and is about an alert of its playbook's type |
| InvestigationService.GetNeverFails | internal/service/investigationservice/service.go:269-302 | "node not in version" is unreachable however much happens between the two reads, and the choices are those of the stored graph |
| InvestigationService.DecisionsReadTheRows | internal/repository/postgres/investigation.go:261-291 | the edge-with-destination query finds exactly the pair that the decision uses |
| InvestigationService.OfferedIffApplied | internal/service/investigationservice/service.go:307-316 | in every reachable state an edge is offered exactly when submitting it with an unused key is applied |
| PathOverlay.BuildPathOverlay | frontend/src/lib/report-path.ts:80-126 | the branches and updates of the source compute the specified overlay |
| PathOverlay.BuildOverlayFromSteps | frontend/src/lib/report-path.ts:133-160 | the live overlay is the path overlay landed on the current node |
| PathOverlay.PathSorts | frontend/src/lib/report-path.ts:98 | sorting restores the run from its entries in any order |
| PathOverlay.OverlayIsRun | frontend/src/lib/report-path.ts:80-160 | for every reachable investigation and any entry order: the run's nodes without repetition, the final node the current node, each node and edge stamped with its step; and the two overlays agree |
| OverlayMeaning.OverlayMeans | frontend/src/lib/report-path.ts:80-126 | of any path: entries by step number, each node stamped by its first entry and each edge by its last, the end of the last edge added, nothing else |
| OverlayMeaning.VisitsInOrder | frontend/src/lib/report-path.ts:100-116 | nodes stand in the order of their first visits |
| PathOverlay.EmptyPathOverlay | frontend/src/lib/report-path.ts:80-126 | a completed zero-step run shows just the root |
| DraftText.TrimTrims | frontend/src/lib/playbook-draft.ts:125-239 | trimming leaves no white space at the ends and changes nothing that has none |
| DraftText.TrimCuts | frontend/src/lib/playbook-draft.ts:125-239 | it removes white space from the ends and nothing else |
| DraftText.TrimUnique | frontend/src/lib/playbook-draft.ts:125-239 | which leaves only one result |
| DraftText.ParseIntReads | frontend/src/lib/playbook-draft.ts:261-264 | parseInt reads white space, a sign and digits, whatever follows |
| DraftText.ParseIntOnly | frontend/src/lib/playbook-draft.ts:261-264 | and nothing else is a number |
| DraftText.ParsePrinted | frontend/src/lib/playbook-draft.ts:261-264 | a printed sort order parses back to itself |
| DraftSerialization.SerializePlaybookDraft | frontend/src/lib/playbook-draft.ts:125-239 | reports exactly the problems of the draft, each once, in the order of the form; and without any yields the normalised graph |
| DraftMeaning.GraphSent | frontend/src/lib/playbook-draft.ts:125-264 | the normalised graph, field by field: texts without the white space around them, blank descriptions and metadata absent, sort orders as read or 0 |
| DraftMeaning.NodeProblemsMean | frontend/src/lib/playbook-draft.ts:130-160 | each problem of a node in terms of what was typed |
| DraftMeaning.EdgeProblemsMean | frontend/src/lib/playbook-draft.ts:172-210 | each problem of an edge in terms of what was typed |
| DraftSerialization.ReportDetermined | frontend/src/lib/playbook-draft.ts:125-239 | that order and the set of problems leave only one report |
| DraftSerialization.CheckNode | frontend/src/lib/playbook-draft.ts:130-170 | exactly the problems of one node, in order, and the node that is sent |
| DraftSerialization.CheckEdge | frontend/src/lib/playbook-draft.ts:172-219 | exactly the problems of one edge, in order, label clashes after trimming included |
| DraftSerialization.AcceptedIsCoherent | migrations/000001_init_schema.up.sql:51-116 | what the form accepts satisfies every per-version constraint |
| DraftSerialization.AcceptedIsStorable | internal/repository/postgres/playbook.go:209-237 | so a replacement stores it, unless another version uses one of its ids |
| DraftSerialization.AcceptedPassesInput | internal/service/playbookservice/service.go:136-174 | and the server's input validation finds no fault, given non-nil ids |
| DraftSerialization.SavingIsStable | frontend/src/lib/playbook-draft.ts:125-287 | serialization is a normalising fixpoint through loading back |
| DraftSerialization.ReloadAcceptedIff | frontend/src/lib/playbook-draft.ts:125-287 | a stored graph can be saved again from the form exactly when no title, label or terminal resolution is blank and trimmed labels stay distinct |
| DraftSerialization.EmptyResolutionDisagreement | migrations/000001_init_schema.up.sql:60-63 | the CHECK accepts an empty resolution that the form rejects |
| GraphInput.ValidateGraphInput | internal/service/playbookservice/service.go:136-174 | nil exactly when no node and no edge has a fault; else the first fault of the first faulty node, or of the first faulty edge |
| GraphInput.CheckNodes | internal/service/playbookservice/service.go:137-154 | the first fault of the first faulty node |
| GraphInput.CheckEdges | internal/service/playbookservice/service.go:156-172 | the first fault of the first faulty edge |
| DecisionForm.Form.IdempotencyKeyFor | frontend/src/components/DecisionForm.tsx:53-60 | the key in use, kept, for the content it was minted for; the minted one otherwise |
| FormRetries.RetriesShareTheKey | frontend/src/components/DecisionForm.tsx:99-110 | however often the same content is submitted before it is acknowledged, and whatever happens meanwhile, it goes under one key |
| FormRetries.RetryIsReplayed | frontend/src/components/DecisionForm.tsx:107-110 | if the first attempt was recorded, a later one of the same content is answered by that step, as a replay, and writes nothing |
| FormRetries.NewContentNewKey | frontend/src/components/DecisionForm.tsx:53-60 | other content goes under a key never used |
| FormRetries.AnswerIsAcknowledged | frontend/src/components/DecisionForm.tsx:97-106 | an answer to the awaited attempt is acknowledged, with the step that records it |
| DecisionForm.DeliveredAnswer | internal/repository/postgres/investigation.go:129-146 | however late or often an attempt arrives, it is never told that its key was reused, and success names the step that records it |
| DecisionForm.StepKeeps | frontend/src/components/DecisionForm.tsx:78-114 | every event of form, network, server and other clients keeps one body per key and one step per acknowledgement |
| DecisionForm.AcknowledgedExactlyOnce | frontend/src/components/DecisionForm.tsx:49-114 | every acknowledged submit is recorded by exactly one step with that content, and no two acknowledgements share a key or a step |

## Left out

- HTTP routing, middleware, request decoding, status mapping, configuration, logging, server lifecycle and the migration runner.
- React screens, graph layout, the editor's list operations, demo data and listing queries: little to prove.
- Alert ingestion, evidence-form validation and the assembly of the report: easy members.
- PostgreSQL itself: row-lock compatibility, per-statement snapshots under READ COMMITTED, one snapshot under REPEATABLE READ and rollback are the step semantics. That updating a version row locks its playbook FOR KEY SHARE is taken from the comment in internal/repository/postgres/playbook.go:125-133.
- Waits of a unique index on client-supplied ids: an insert whose id another transaction has pending waits, and an id that is deleted but not committed counts as taken.
- VersionTheorems.NoDeadlock: covers version rows and playbook rows only, not waits on ids.
- DraftSerialization.SavingIsStable: parsing and printing JSON are parameters, assumed inverse on objects.
- DraftText.ParsePrinted: sort orders are unbounded integers; doubles beyond 2^53 and the 32-bit column are not modelled.
- DecisionForm.AcknowledgedExactlyOnce: content is compared as a value, where the form compares JSON texts; a form that is mounted anew loses its key, so a decision that landed unacknowledged may then be sent again as a different one.
- UUID width and generation, clocks: parameters.
- Archiving a version: no endpoint does it; the status only makes Start fail.
