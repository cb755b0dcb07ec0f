# Verified models of the control-plane kernels

This project models the algorithmic parts of the repository in Dafny and proves what they are for. One module, in a
file of the same name, stands for one component; where the source changes state in place (the cycle finder, the
workflow run) the model is a class, where it loops the model is a method proved against a specification, and where it
is an expression the model is a function.

**Workflow graphs.** `CycleDetection` is the three-colour search of `findCycle`; it reports a cycle exactly when there
is one, and what it reports is a simple cycle. `TopologicalOrder` is Kahn's algorithm with its sorted ready list, proved
to produce *the* greedy order of the graph, and `OrderProperties` shows what that order is: unique, the
lexicographically least topological order, complete exactly on acyclic graphs, and otherwise missing exactly the nodes
below a cycle. `GraphValidation` proves every issue of `validateWorkflowGraph` to be reported exactly when it is due,
and `ValidGraphs` draws the conclusions: in a valid graph every node is on a path from the one trigger to a terminal,
and the topological order runs from the trigger to a terminal; `ValidMeaning` gives the verdict in terms of the nodes,
the edges and the registry alone, and `IssueMeaning` the issues. `Normalization` and `NormalizationProperties` are the
reader of untrusted input, a projection onto well-formed graphs, and `NormalizationMeaning` says of every raw value what
becomes of it; `CanonicalJson` and `CanonicalGraphs` are the printer behind the version hash, with a parser that undoes
it. `WorkflowDrafts` proves that accepted drafts cannot deadlock. `WorkflowRecords` and `WorkflowSteps` carry that
through scheduling with retries, skips below failures, pauses and limits, as functions on the state of a run and
invariants of them, and `WorkflowConvergence` decides for which retry limits the ceiling on passes is high enough.
`WorkflowOutcomes` keeps the log of the questions a run puts to its services and says from the answers alone how every
task and the run itself end. `WorkflowEngine` is the class that updates a run in place, each method proved to take it
where the function says.

**Write leases.** `LeaseScopes` reads the scope tests of the lease manager in terms of path segments, and `Leases` is
the manager as a class, with an invariant that every operation keeps whatever the clock shows: of two conflicting
leases the later was granted after the end of the earlier. From it follows for which readings of the clock two agents
can come to hold one path.

**Workspace paths and globs.** `Globs` compiles a pattern to a regular expression; `GlobReading` reads the emitted
source back as a regular expression (section 22.2.1 of ECMA-262, 2023 edition) and gives its meaning, and
`GlobSegments` proves that meaning to be a matcher on path segments. `GlobExactness` shows for which patterns it is not,
by a path on which the two differ. `WorkspacePolicy` applies this to the classes of paths. `WorkspacePaths`,
`PathMeaning`, `PathProperties` and `ScopeProperties` are the path canonicaliser and the two scope tests, which are
prefix tests on lists of segments.

**Arithmetic and decisions.** `Summation` proves an error bound for the compensated sum of `sumUsd` with rounding
modelled as a relative error on real numbers (section 4.3.1 of IEEE 754-2019); `SummationLimits` shows what the bound
is worth. `Budget` is `evaluateBudget` against a declarative reading of its documentation.

**Parsing, paging, redaction, lifecycle.** `Versions`, `Pagination`, `Redaction` with `RedactionProperties` and
`RedactionMeaning`, and `Onboarding`.

`Digraphs`, `Ordering`, `Segments`, `Decimal`, `Text`, `Values`, `WorkflowGraphs` and `Wrappers` are shared: walks and
reachability, string order and sorting, splitting and joining, decimal numerals, JavaScript strings and values.

## What the proofs found

- **Edge keys.** `validateWorkflowGraph` drops an edge as a duplicate when its key `from->to` has been seen. Two
  different pairs of ids can share a key (`a->b` to `c`, and `a` to `b->c`), and then the second edge is lost and
  reported as a duplicate. `ValidGraphs.KeptAllIffNoCollision` says exactly when this happens; an id needs a `>` in it,
  which the normaliser never lets through (`ValidGraphs.NoCollisionWithoutArrow`), so normalised
  input cannot reach this; a graph given to the validator directly can (`ValidGraphs.LostConnection`).
- **Retry limits.** The ceiling on scheduling passes counts retries plus one for each task, but a fraction of a retry is
  a whole attempt. The ceiling suffices for every whole retry limit that is not negative
  (`WorkflowConvergence.WholeLimitsSuffice`) and not for all others: with a limit of one half and ten tasks that fail
  once and then complete, a run is failed as "did not converge" (`WorkflowConvergence.HalfRetryExample`). With a
  negative limit the ceiling may even allow no pass at all (`WorkflowSteps.NoPasses`).
  `WorkflowConvergence.ConvergesIff` says for every number of tasks and every retry limit whether this can happen.
- **Home directories.** The test for `~` looks at the raw request, so `./~a` resolves to `~a`, which is itself refused
  (`PathProperties.HomeExample`). `PathProperties.ResolveAgain` gives the exact case in which resolving twice fails.
- **Two stars inside a segment.** `a**/b` compiles to an expression that matches `ab`
  (`WorkspacePolicy.StarsInsideSegmentExample`). For patterns on one line without three stars in a row, the segment
  reading is right on every path exactly when every `**` is a whole segment (`GlobExactness.WholeStarsExact`). With
  three stars it can be right all the same, as for `**/***` (`GlobExactness.TripleStarAgrees`). A `**` segment also does
  not skip a directory whose name contains a line terminator such as U+2028, because a dot does not match one
  (`WorkspacePolicy.StarsSkipOneLineDirectories`).
- **Compensated summation.** From the relative error of each operation alone, the returned sum is off by at most
  `(3u + 14nu²)` times the sum of absolute values: the leading term is three units, not two
  (`SummationLimits.TwoIsNotEnough`). Two units hold when the subtraction that recovers the addend is exact, as the
  second part of `Summation.SumError` says; that is a condition on the run, which a caller cannot test beforehand. Plain
  addition drifts by `n` units (`SummationLimits.PlainDrifts`).
- **Unpriced usage.** The warning pass of `evaluateBudget` returns before the escalation for unpriced usage, so a
  hard-stopped project that is past its warning percentage is warned although the comment on the statuses expects it
  blocked. `Budget.UnpricedMonotoneIff` gives the exact condition under which
  more spending never lowers the severity.
- **Page sizes below one.** A limit between zero and one makes empty pages, whatever the cursor
  (`Pagination.EmptyBelowOne`), so the pages are the list exactly for sizes from one on and for the empty list
  (`Pagination.YieldsAllIff`). After the first page the client asks for the same offset for ever, or comes to an end
  with nothing (`Pagination.StuckBelowOne`): a size so small that it is printed with an exponent is read back as its
  first digit, every other as zero.
- **Leases and the clock.** Whether a lease is live is decided by its end alone, so a clock that goes back can revive
  one after its place was given away. `Leases.HeldTwiceIff` says for which readings this can happen; while no reading is
  later than the present one, a path of a workspace is under one live lease of a project at most
  (`Leases.OneLeasePerPath`).
- **Leases and projects.** Conflicts are looked for within a project, but the question whether an agent may write looks
  at the workspace only, so agents of two projects can both be admitted to one path (`Leases.ProjectsDoNotExclude`).
- **Spellings of a scope.** Scope entries are compared name by name without dropping empty names and dots: `a/.` and
  `a/b` do not conflict (`LeaseScopes.SpellingExample`). `LeaseScopes.ConflictByPlaceIff` says which entries conflict
  with every plain entry they should.
- **Empty scopes.** An empty scope covers nothing and yet conflicts with the whole workspace;
  `LeaseScopes.ConflictIffSharedPath` shows this to be the one conflict without a path in common.

## Model

| member | source | states |
|---|---|---|
| `CycleDetection.FindCycle` | contracts/workflow.ts:237-271 | a cycle is returned exactly when the known dependencies have one, and then it is a closed walk that repeats only its first node |
| `CycleDetection.CycleFinder.Visit` | contracts/workflow.ts:245-262 | one search below a white node: a simple cycle, or the path restored, the node black and fewer white nodes |
| `CycleDetection.CycleFinder.Enter` | contracts/workflow.ts:246-247 | painting gray and pushing keeps the path a walk whose nodes are exactly the gray ones |
| `CycleDetection.CycleFinder.Leave` | contracts/workflow.ts:259-260 | popping and painting black keeps every black node after its dependencies |
| `CycleDetection.AllBlackAcyclic` | contracts/workflow.ts:264-270 | when all nodes are black there is no cycle of any length |
| `WorkflowDrafts.ValidateWorkflowDraft` | contracts/workflow.ts:277-368 | a draft is accepted exactly when it meets the declared conditions, among them known dependencies and no cycle; an error reported is a true one |
| `WorkflowDrafts.AcceptedExactly` | contracts/workflow.ts:282-368 | field by field: accepted exactly when every required text shows a character, agents and tasks are given, every task is complete, every dependency names another task, and there is no cycle |
| `WorkflowDrafts.StuckOnlyWhenDone` | contracts/workflow.ts:302-368 | of an accepted draft, whatever set of tasks is done, some unfinished task has all its dependencies done, until none is left |
| `WorkflowDrafts.GreedyRunFinishes` | contracts/workflow.ts:302-368 | a run that always takes a ready task can only stop with every task done, and takes one step for each |
| `WorkflowEngine.Create` | core/workflows/workflow-system.ts:54-61 | a run comes into being exactly for accepted drafts within the task limit, with every task pending |
| `WorkflowRecords.ReadyTasksExact` | core/workflows/workflow-graph.ts:18-30 | the ready list holds exactly the pending tasks all of whose dependencies are completed, each once |
| `WorkflowRecords.ReadyTasksInOrder` | core/workflows/workflow-graph.ts:18-30 | the ready tasks stand in the order of the tasks |
| `WorkflowRecords.PendingMeansReady` | core/workflows/workflow-graph.ts:18-30 | in every consistent state with no task awaiting approval, a pending task anywhere means a ready task somewhere |
| `WorkflowRecords.DependentsOfLostAreSkipped` | core/workflows/workflow-engine.ts:483-511 | in every consistent state, everything that depends, at any distance, on a lost task is skipped |
| `WorkflowRecords.FindSkips` | core/workflows/workflow-engine.ts:484-499 | the fixpoint loop collects exactly the pending tasks from which dependencies lead to the lost one |
| `WorkflowRecords.SkipsBelowIsSkipSet` | core/workflows/workflow-engine.ts:484-499 | that set is closed: a pending task is in it exactly when it depends directly on the lost task or on a member |
| `WorkflowRecords.BudgetBound` | core/workflows/workflow-engine.ts:227-230 | the attempts left never exceed the number of tasks times the attempts each has, which for a fraction of a retry is the next whole number plus one |
| `WorkflowSteps.EndWithStep` | core/workflows/workflow-engine.ts:338-412 | giving an open task its next record keeps the run sound; besides it only pending tasks change, and only to skipped |
| `WorkflowSteps.AfterTurnSound` | core/workflows/workflow-engine.ts:249-294 | a turn keeps the run sound and within the limit on executions, and uses up some of the task's attempts unless it stops the run |
| `WorkflowSteps.AfterTurnsSound` | core/workflows/workflow-engine.ts:249-294 | tasks found ready stay ready while those before them in the pass are worked on |
| `WorkflowSteps.PassSound` | core/workflows/workflow-engine.ts:231-295 | a pass either leaves fewer attempts or ends well |
| `WorkflowSteps.AfterPassesSound` | core/workflows/workflow-engine.ts:223-297 | from every sound state, with more passes left than attempts, scheduling ends well and nothing that had ended changes |
| `WorkflowSteps.SchedulingEndsWell` | core/workflows/workflow-engine.ts:223-297 | every run ends well: for want of passes only if the ceiling does not exceed the attempts of all tasks, never finalised with work left, completed with all tasks, paused with an approval awaited and nothing ready |
| `WorkflowConvergence.ConvergesIff` | core/workflows/workflow-engine.ts:227-297 | for every number of tasks and every retry limit, fractions included: no run can fail for want of passes exactly when the ceiling exceeds the attempts of all tasks together |
| `WorkflowConvergence.EnoughPasses` | core/workflows/workflow-engine.ts:227-297 | more passes than attempts left are enough from every sound state, whatever the retry limit |
| `WorkflowConvergence.WholeLimitsSuffice` | core/workflows/workflow-engine.ts:227-297 | for whole retry limits that are not negative the ceiling suffices, whatever the number of tasks |
| `WorkflowConvergence.HalfRetryExample` | core/workflows/workflow-engine.ts:227-297 | for ten tasks and half a retry the ceiling of twenty passes does not suffice |
| `WorkflowConvergence.ChainNeedsMore` | core/workflows/workflow-engine.ts:227-297 | otherwise a chain of tasks that fail as often as they may and then complete fails for want of passes |
| `WorkflowSteps.AfterParkedSound` | core/workflows/workflow-engine.ts:134-143 | settling the parked tasks one by one keeps the run sound and the others parked |
| `WorkflowSteps.ResumingEndsWell` | core/workflows/workflow-engine.ts:126-145 | a resumed run ends as well as a fresh one, and what had ended stays so |
| `WorkflowEngine.WorkflowRun.PropagateSkip` | core/workflows/workflow-engine.ts:483-511 | exactly the pending tasks below the lost one become skipped |
| `WorkflowEngine.WorkflowRun.ApplyTaskOutcome` | core/workflows/workflow-engine.ts:338-412 | the whole new state for each outcome, retry, loss and abort included |
| `WorkflowEngine.WorkflowRun.Dispatch` | core/workflows/workflow-engine.ts:257-335 | assignment, handoffs, execution count, tool calls and outcome lead to the specified state |
| `WorkflowEngine.WorkflowRun.RunAllReady` | core/workflows/workflow-engine.ts:249-294 | the inner loop with its early returns is the specified sequence of turns |
| `WorkflowEngine.WorkflowRun.Schedule` | core/workflows/workflow-engine.ts:223-297 | the scheduling loop takes the run where the specification says, and so to a good end |
| `WorkflowEngine.WorkflowRun.Resume` | core/workflows/workflow-engine.ts:126-145 | the same for a paused run: parked tasks first, then scheduling |
| `WorkflowSteps.FinalStatusTrue` | core/workflows/workflow-engine.ts:521-577 | finalised with no work left, a run is completed exactly when every task is, and otherwise failed with a task really lost |
| `WorkflowOutcomes.RunAccount` | core/workflows/workflow-engine.ts:126-411 | on every run, scheduled or resumed, the record of each task at the end is what its own turns met with makes of it: all but the last a failure to be tried again |
| `WorkflowOutcomes.CompletedExactly` | core/workflows/workflow-engine.ts:354-369 | a task is completed at the end of a run exactly when it was before or one of its own questions was answered so |
| `WorkflowOutcomes.AwaitingExactly` | core/workflows/workflow-engine.ts:345-352 | a task awaits approval at the end of a run exactly when it was told to, or was waiting and was not asked about |
| `WorkflowOutcomes.TurnsNeedDone` | core/workflows/workflow-engine.ts:237-247 | what is attempted depends, at any distance, on completed tasks only: nothing goes on behind an open approval |
| `WorkflowOutcomes.TurnsAgain` | core/workflows/workflow-engine.ts:371-392 | a task is attempted again only after a retryable failure and while a retry is left |
| `WorkflowOutcomes.FinalFailure` | core/workflows/workflow-engine.ts:394-411 | a failure that is not retryable ends its task as failed |
| `WorkflowOutcomes.BlockedExactly` | core/workflows/workflow-engine.ts:273-293 | a task is blocked at the end of a run exactly when it was before or no agent could be assigned to it |
| `WorkflowOutcomes.LossStops` | core/workflows/workflow-engine.ts:285-411 | in abort mode a run that loses a task stops for a task that failed or was blocked in it; otherwise no run stops for a task |
| `WorkflowOutcomes.LimitsExactly` | core/workflows/workflow-engine.ts:231-333 | a run is stopped for time, handoffs or tool calls exactly when that limit was met |
| `WorkflowOutcomes.ExecutionsCounted` | core/workflows/workflow-engine.ts:250-333 | executions count the dispatches of the log, and their limit stops a run only once it is reached |
| `WorkflowOutcomes.LogIsTruthful` | core/workflows/workflow-engine.ts:126-335 | every entry of the log is a question of its own, in order, with the answer the services gave or the decision on a parked task |
| `TopologicalOrder.TopologicalOrder` | contracts/workflow-definitions.ts:662-688 | the in-degree and ready-list loops return the greedy order: each node the least available, until none is |
| `Ordering.LessExactly` | contracts/workflow-definitions.ts:673-683 | the sorted lists are ordered by the characters at the first place where two ids differ |
| `OrderProperties.GreedyOrderUnique` | contracts/workflow-definitions.ts:661-688 | there is only one greedy order of a graph |
| `OrderProperties.OrderDependsOnlyOnJoins` | contracts/workflow-definitions.ts:661-688 | the order does not depend on the order of nodes or edges, on repeated edges or on self loops |
| `OrderProperties.GreedyOrderIsLeast` | contracts/workflow-definitions.ts:661-688 | it comes lexicographically before every other topological order |
| `OrderProperties.AcyclicOrderIsTopological` | contracts/workflow-definitions.ts:661-688 | on an acyclic graph it lists every node once with every edge going forward |
| `OrderProperties.CompleteIffAcyclic` | contracts/workflow-definitions.ts:661-688 | it is complete exactly when there is no cycle |
| `OrderProperties.OmittedExactlyBelowCycles` | contracts/workflow-definitions.ts:661-688 | the nodes it omits are exactly those that some cycle reaches |
| `ValidGraphs.CycleReportAgreesWithOrder` | contracts/workflow-definitions.ts:558-564 | depth-first search and Kahn's algorithm agree on whether there is a cycle, when no two edges share a key |
| `GraphValidation.ValidateWorkflowGraph` | contracts/workflow-definitions.ts:486-658 | each issue is reported exactly when its rule is broken, for exactly the nodes and edges that break it; cycles exactly when there is one, at a node on it; valid when nothing is |
| `GraphValidation.BuildAdjacency` | contracts/workflow-definitions.ts:510-541 | the maps built in the loop are the kept edges forwards and backwards, and the edge issues are exact |
| `GraphValidation.Explore` | contracts/workflow-definitions.ts:567-593 | the worklist loop ends on every graph, valid or not, with exactly what is reachable from the starts |
| `GraphValidation.ReachabilityIssues` | contracts/workflow-definitions.ts:567-583 | unreachable is reported for exactly the nodes with no path from the first trigger |
| `GraphValidation.TerminationIssues` | contracts/workflow-definitions.ts:584-602 | no path to a terminal is reported for exactly the nodes that have none |
| `GraphValidation.CandidateAgents` | contracts/workflow-definitions.ts:465-484 | the agents listed are exactly the qualified ones |
| `ValidMeaning.QualifiedMeans` | contracts/workflow-definitions.ts:465-484 | with a task type given, an agent qualifies exactly when it is enabled, is the one named if one is, and offers the capability and the task type |
| `ValidMeaning.DisabledAreNoCandidates` | contracts/workflow-definitions.ts:472 | with every agent disabled there is no candidate |
| `IssueMeaning.ReportedExactly` | contracts/workflow-definitions.ts:486-658 | issue by issue, with code, node and edge: what is reported, but for cycles, is exactly what the nodes, the edges and the registry give cause for |
| `ValidGraphs.KeptAllIffNoCollision` | contracts/workflow-definitions.ts:531-541 | no connection is lost in de-duplication exactly when no two have the same key |
| `ValidGraphs.NoCollisionWithoutArrow` | contracts/workflow-definitions.ts:531-541 | ids without `>` never collide |
| `ValidGraphs.CollisionExample` | contracts/workflow-definitions.ts:531-541 | two different connections with one key |
| `ValidGraphs.LostConnection` | contracts/workflow-definitions.ts:531-541 | a graph on which the validator does not keep every edge between two of its nodes |
| `ValidGraphs.IsValid` | contracts/workflow-definitions.ts:486-658 | the verdict of the validator is the declarative notion of a valid graph |
| `ValidMeaning.ValidExactly` | contracts/workflow-definitions.ts:486-658 | a graph is valid exactly when it has one trigger and some terminal, its edges join different nodes, no two written the same, without a cycle, every node lies between trigger and terminal, tasks can be taken and use known tools, approvals say what and lead on, and no text looks like a credential |
| `ValidGraphs.EveryNodeOnAPath` | contracts/workflow-definitions.ts:486-658 | in a valid graph every node is on a walk from the one trigger to a terminal |
| `ValidGraphs.TriggerIsOnlySource` | contracts/workflow-definitions.ts:486-658 | the trigger is the one node without input |
| `ValidGraphs.TerminalsAreOnlySinks` | contracts/workflow-definitions.ts:486-658 | the terminals are exactly the nodes without output |
| `ValidGraphs.ValidOrder` | contracts/workflow-definitions.ts:662-688 | the topological order of a valid graph is complete, begins with the trigger and ends with a terminal |
| `Normalization.StringList` | contracts/workflow-definitions.ts:258-273 | the loop returns the trimmed items, or nothing when one is unacceptable |
| `Normalization.NormalizeWorkflowGraph` | contracts/workflow-definitions.ts:286-433 | the node and edge loops compute the specified graph and list of issues |
| `NormalizationMeaning.NormalizedExactly` | contracts/workflow-definitions.ts:258-433 | for every input: which values are kept as nodes and edges, in order, what their properties make of each text, list and coordinate, and exactly what is complained about |
| `NormalizationMeaning.NodeFromOnce` | contracts/workflow-definitions.ts:311-401 | a raw value admits one node only |
| `NormalizationMeaning.NamesAre` | contracts/workflow-definitions.ts:243 | an id has one to 64 letters, digits, underscores or hyphens |
| `NormalizationMeaning.KindsAre` | contracts/workflow-definitions.ts:25-30 | the four kinds and how they are written |
| `NormalizationMeaning.PaddingIgnored` | contracts/workflow-definitions.ts:275-279 | white space around a text, within the limit, makes no difference |
| `NormalizationProperties.NormalizedWellFormed` | contracts/workflow-definitions.ts:286-433 | whatever the input, ids are unique, texts trimmed and bounded, positions clamped whole numbers |
| `NormalizationProperties.WellFormedFixed` | contracts/workflow-definitions.ts:286-433 | a well-formed graph comes back unchanged and without issues |
| `NormalizationProperties.NormalizeIsProjection` | contracts/workflow-definitions.ts:286-433 | feeding an output back in returns it unchanged and without issues |
| `NormalizationProperties.NothingDroppedSilently` | contracts/workflow-definitions.ts:286-433 | without issues, as many nodes and edges come out as went in |
| `CanonicalJson.ParseStringified` | contracts/workflow-definitions.ts:702 | a parser reads every printed value back, escapes included (section 7 of RFC 8259) |
| `CanonicalJson.StringifyInjective` | contracts/workflow-definitions.ts:702 | values with the same text are the same |
| `CanonicalJson.ShortestEscape` | contracts/workflow-definitions.ts:702 | no text that reads as a character is shorter than the escape printed for it |
| `CanonicalGraphs.CanonicalIffSame` | contracts/workflow-definitions.ts:692-701 | sorting keys identifies two values exactly when they differ only in the order of keys |
| `CanonicalGraphs.CanonicalTextExact` | contracts/workflow-definitions.ts:690-703 | canonical texts are equal exactly for such values: blind to key order, and to nothing else |
| `CanonicalGraphs.CanonicalGraphJsonInjective` | contracts/workflow-definitions.ts:690-703 | graphs with the same canonical text are equal |
| `Globs.GlobToRegExp` | contracts/workspace.ts:295-319 | the character loop emits the source of the pattern's tokens between anchors |
| `GlobReading.GlobSourceReadsBack` | contracts/workspace.ts:295-319 | the emitted text, read as a regular expression, is the intended sequence of terms, escapes included |
| `GlobReading.GlobTestIsTokens` | contracts/workspace.ts:295-323 | testing a path against the compiled expression is matching it token by token |
| `GlobSegments.GlobTestMatchesPaths` | contracts/workspace.ts:295-323 | with `**` only as whole segments, the expression matches exactly when the segment matcher does |
| `GlobExactness.WholeStarsExact` | contracts/workspace.ts:295-323 | for patterns on one line without three stars in a row: the expression agrees with the segment matcher on every path exactly when `**` occurs as a whole segment only |
| `GlobExactness.TripleStarAgrees` | contracts/workspace.ts:295-323 | `**/***` breaks that condition and agrees on every path |
| `WorkspacePolicy.ClassifyExact` | contracts/workspace.ts:326-337 | for every policy, each class: the first list that matches, in the order of severity; by segments for the lists whose patterns allow that reading |
| `WorkspacePolicy.ClassIgnoresCase` | contracts/workspace.ts:326-337 | the class of a path does not depend on its letter case |
| `WorkspacePolicy.StarsInsideSegmentExample` | contracts/workspace.ts:299-310 | two stars inside a segment match across it |
| `WorkspacePolicy.StarsSkipOneLineDirectories` | contracts/workspace.ts:302-305 | `**/file` skips a directory exactly when its name is on one line |
| `WorkspacePaths.ResolveWorkspacePath` | contracts/workspace-paths.ts:36-87 | the loops compute the specified result or the first violation |
| `PathMeaning.AcceptedExactly` | contracts/workspace-paths.ts:36-87 | in terms of characters and segments: accepted exactly when the text is allowed and every segment but empty ones and dots is no parent, ends in no dot or space, is no device name and has no forbidden character; then the others are kept |
| `PathMeaning.RefusedExactly` | contracts/workspace-paths.ts:36-87 | refused for the first violation of the text in the order of the checks, or else for that of the first segment with one |
| `PathProperties.ResolvedForm` | contracts/workspace-paths.ts:31-87 | an accepted path becomes clean segments joined by slashes, or `.`, no longer than the request |
| `PathProperties.ResolveAgain` | contracts/workspace-paths.ts:36-87 | resolving a result returns it, except exactly when it begins with `~`, which is refused |
| `PathProperties.HomeExample` | contracts/workspace-paths.ts:47-48 | `./~a` resolves to a path that is itself refused |
| `ScopeProperties.IsWithinScopeExact` | contracts/workspace-paths.ts:90-98 | on every pair of requests: the violation of the first refused one, or whether the scope's folded segments are a prefix of the path's |
| `ScopeProperties.WithinScopePreorder` | contracts/workspace-paths.ts:90-98 | being within scope is reflexive and transitive |
| `WorkspacePaths.AssertRealPathWithinRoot` | contracts/workspace-paths.ts:105-127 | the test after the stripping loops is the specified one |
| `WorkspacePaths.NormalizeReal` | contracts/workspace-paths.ts:110-117 | the while loop strips the trailing separators, drive roots excepted |
| `ScopeProperties.NormalizedRealKeeps` | contracts/workspace-paths.ts:110-117 | character by character: on POSIX nothing changes, on Windows case and the kind of slash, and only separators are taken off the end |
| `ScopeProperties.InsideByComponents` | contracts/workspace-paths.ts:118-126 | the test is that the root's components are a prefix of the path's, with its one exception |
| `Summation.SumUsd` | contracts/cost-center.ts:38-48 | the loop computes the specified run, whatever the rounding |
| `Summation.ExactArithmetic` | contracts/cost-center.ts:38-48 | without rounding the compensation stays zero and the sum is exact |
| `Summation.RunStaysClose` | contracts/cost-center.ts:38-48 | after any number of amounts, sum less compensation is off by at most twice the scaled magnitude and a second-order term |
| `Summation.SumError` | contracts/cost-center.ts:28-48 | the returned sum is within `3u + 14nu²` of the total, relative to the magnitude, and within `2u + 14nu²` when differences are exact |
| `SummationLimits.PlainDrifts` | contracts/cost-center.ts:29-32 | plain addition can be off by `n` units for `n` amounts, for every `n` |
| `SummationLimits.TwoIsNotEnough` | contracts/cost-center.ts:33-36 | whatever the second-order constant, rounding within `u` alone does not give a leading term of two |
| `Budget.EvaluateBudget` | contracts/cost-center.ts:267-361 | the two passes and the escalation return what the documentation says, the first window in priority order included |
| `Budget.LimitByLimit` | contracts/cost-center.ts:267-361 | the verdict read off each limit and the spend that belongs to it, with the window that carries both |
| `Budget.ReachedByOwnSpend` | contracts/cost-center.ts:279-326 | a limit or a percentage is reached exactly when the spend of its own window has come to it |
| `Budget.JudgedOnce` | contracts/cost-center.ts:252-266 | the documented meaning admits one evaluation only |
| `Budget.SeverityMonotone` | contracts/cost-center.ts:252-330 | with everything priced, more spending or tighter limits never lower the severity |
| `Budget.UnpricedMonotoneIff` | contracts/cost-center.ts:316-349 | with unpriced usage, severity grows with spend exactly for policies that do not warn before they stop |
| `Versions.MatchComplete` | contracts/environments.ts:43-46 | every text the pattern describes is matched with the captures that describe it |
| `Versions.MatchSound` | contracts/environments.ts:43-46 | whatever is matched is described by the captures |
| `Versions.CapturesUnique` | contracts/environments.ts:43-46 | the pattern is unambiguous |
| `Versions.AcceptedIff` | contracts/environments.ts:36-55 | accepted are exactly the pattern's texts with white space around them, with the version they denote |
| `Versions.RoundTripIff` | contracts/environments.ts:36-62 | a printed version reads back exactly when its suffixes are absent or in the pattern's alphabet |
| `Versions.BareNumber` | contracts/environments.ts:48-54 | a number on its own is a version whose missing parts are zero, the same as with them written out |
| `Versions.TwoNumbers` | contracts/environments.ts:48-54 | two numbers are major and minor |
| `Versions.BuildIs` | contracts/environments.ts:42-46 | what stands behind a plus sign is the build exactly when it is made of letters, digits, dots and hyphens, at least one |
| `Versions.EmptyIsNotPrinted` | contracts/environments.ts:57-62 | an empty suffix is printed like an absent one |
| `Versions.NormalizedIdempotent` | contracts/environments.ts:36-62 | printing what was read keeps the version, and a second time changes nothing |
| `Versions.CompareIsTotalPreorder` | contracts/environments.ts:64-90 | comparison is a total preorder on the three numbers, and the minimum test agrees with it |
| `Redaction.RedactValue` | control/redaction.ts:30-61 | the recursive walk with its loops computes the specified redaction |
| `Redaction.RedactObject` | control/redaction.ts:44-58 | the entry loop with its counter: redacted entries, then the note about the rest |
| `RedactionProperties.CutCreatesNothing` | control/redaction.ts:23-28 | truncating a text that matches no secret pattern, and marking the cut, makes no match |
| `RedactionProperties.RedactedIsSafe` | control/redaction.ts:12-61 | for input of any depth and width: at most four levels, 51 entries and 61 keys, no string with a secret, every secret-looking key's value replaced |
| `RedactionProperties.EntriesKept` | control/redaction.ts:46-57 | the entries looked at keep their keys and their order |
| `RedactionProperties.ItemsKept` | control/redaction.ts:36-42 | the first fifty items stand in front, each redacted, and a note of the number of items behind them if there are more |
| `RedactionProperties.LongTextCut` | control/redaction.ts:23-28 | a text without a secret keeps its first five hundred characters, with a note of its length if there are more |
| `RedactionMeaning.SecretKeyIff` | control/redaction.ts:12-13 | a key is secret exactly when it contains, in any case, one of eight words or one of five pairs, joined by nothing, an underscore or a hyphen |
| `RedactionMeaning.TokensAre` | contracts/execution.ts:72-73 | what makes a token behind each start: how many characters at least, and which |
| `RedactionMeaning.HeadersAre` | contracts/execution.ts:72-73 | a key header names its kind in capitals and spaces |
| `RedactionMeaning.DepthIs` | control/redaction.ts:34 | what is neither text, number nor truth value is cut off exactly from the fifth level on |
| `RedactionMeaning.KeysKept` | control/redaction.ts:44-58 | the first sixty entries stand in front, each redacted, and a note of the number of keys behind them if there are more |
| `RedactionProperties.CleanUnchanged` | control/redaction.ts:30-61 | small values without secrets come through unchanged |
| `Pagination.CursorRoundTrip` | control/derive.ts:389-395 | a printed offset reads back as its whole part |
| `Pagination.CursorRead` | control/derive.ts:389 | white space and a plus sign in front of a cursor and anything behind its digits make no difference; below zero the list starts over |
| `Pagination.SizeIs` | control/derive.ts:384-388 | the page size is what was asked for, at most 200, and 25 when nothing positive was |
| `Pagination.FullPage` | control/derive.ts:384-390 | a page that is not the last holds as many items as were asked for |
| `Pagination.WalkFrom` | control/derive.ts:373-397 | following the cursor from anywhere ends and yields the items from there on, none missing and none twice |
| `Pagination.WalkIsAll` | control/derive.ts:373-397 | from the first page on, the pages are the whole list |
| `Pagination.YieldsAllIff` | control/derive.ts:379-397 | for every list and every page size: following the cursors from the first page collects the list exactly when an item fits on a page or there is none |
| `Pagination.EmptyBelowOne` | control/derive.ts:384-396 | below one every page is empty, and has a successor as long as its cursor is within the list |
| `Pagination.AdvancesIff` | control/derive.ts:384-396 | a page leads on exactly when at least one item fits on it, or at the start when a tiny size is misread from its exponent form |
| `Pagination.StuckBelowOne` | control/derive.ts:384-396 | for every size below one the offset after the first page is the same for ever, or beyond the list and the last |
| `Pagination.PlainSizesStayAtStart` | control/derive.ts:384-396 | a size below one that is printed without an exponent asks for the first page for ever |
| `LeaseScopes.CoversBySegments` | core/orchestrator/lease-manager.ts:85-90 | a scope root covers a path exactly when it is the whole workspace or its names are in front of those of the path |
| `LeaseScopes.CanonicalCovers` | core/orchestrator/lease-manager.ts:85-90 | on texts with slashes only, none at the end and no dot in front, a root covers itself and what goes on with a slash |
| `LeaseScopes.RespelledCovers` | core/orchestrator/lease-manager.ts:85-110 | a dot segment in front, a separator at the end or the other kind of separator changes nothing of what a path covers and is covered by |
| `LeaseScopes.RespelledConflicts` | core/orchestrator/lease-manager.ts:98-110 | nor of what a scope conflicts with |
| `LeaseScopes.DotConflictExample` | core/orchestrator/lease-manager.ts:98-110 | a directory with a dot segment in front conflicts with a file in it |
| `LeaseScopes.ConflictIffSharedPath` | core/orchestrator/lease-manager.ts:92-106 | two scopes conflict exactly when some path is covered by both, or one is empty and the other the whole workspace |
| `LeaseScopes.PlaceIsResolved` | core/orchestrator/lease-manager.ts:108-110 | for an accepted path, the names that are not skipped are the segments the canonicaliser keeps |
| `LeaseScopes.ConflictByPlaceIff` | core/orchestrator/lease-manager.ts:98-110 | an entry conflicts with every plain entry above or below its place exactly when it has no empty name and no dot itself |
| `LeaseScopes.SpellingExample` | core/orchestrator/lease-manager.ts:98-110 | a directory, written with a dot, and a file in it do not conflict |
| `Leases.ValidateScope` | core/orchestrator/lease-manager.ts:46-76 | the loop accepts exactly the scopes without a fault, and reports the first fault |
| `Leases.StepKeeps` | core/orchestrator/lease-manager.ts:126-267 | every operation, at any reading of the clock, keeps ids distinct and of two conflicting active leases the later granted after the end of the earlier |
| `Leases.HeldTwiceIff` | core/orchestrator/lease-manager.ts:126-267 | for all readings of the clock: some operations lead to two live leases on one path exactly when the clock comes back from a later reading within the longest life of an earlier lease |
| `Leases.OneLeasePerPath` | core/orchestrator/lease-manager.ts:126-267 | after any operations, while no reading was later than now, two live leases of one project and workspace that cover a path are the same lease |
| `Leases.ProjectsDoNotExclude` | core/orchestrator/lease-manager.ts:165-238 | any two grantable requests of different projects for one workspace are both granted, and both agents may write what both cover |
| `Leases.RespelledGranted` | core/orchestrator/lease-manager.ts:126-187 | nor of what is granted |
| `Leases.RespelledHeld` | core/orchestrator/lease-manager.ts:98-187 | nor of what a lease that is held stands in the way of |
| `Leases.RefusedIff` | core/orchestrator/lease-manager.ts:165-187 | a request in order is refused exactly when a live lease of its project and workspace shares a path with it, or one of the two is empty and the other the whole workspace |
| `Leases.TwoWriters` | core/orchestrator/lease-manager.ts:227-238 | two agents may write one path at a time only under leases of two projects, or when the clock came back |
| `Leases.AcceptedScopes` | core/orchestrator/lease-manager.ts:43-76 | accepted are at most 256 entries of one to 512 characters, none with two dots in a row, with a slash in front or with a drive letter |
| `Leases.AcceptedStaysInside` | core/orchestrator/lease-manager.ts:56-74 | an accepted entry is not absolute and none of its names leads upwards |
| `Leases.TtlIs` | core/orchestrator/lease-manager.ts:136-141 | an hour when nothing is asked for, what is asked for up to a day, and otherwise an error |
| `Leases.LeaseIsAsAsked` | core/orchestrator/lease-manager.ts:148-160 | a granted lease carries what was asked for |
| `Leases.TaskReleased` | core/orchestrator/lease-manager.ts:205-219 | afterwards the task holds nothing, and nothing else has changed |
| `Leases.SweptAreOver` | core/orchestrator/lease-manager.ts:250-267 | what is still active after a sweep is live, and what was live has not changed |
| `Leases.LeaseManager.Acquire` | core/orchestrator/lease-manager.ts:126-187 | granted exactly when scope and time are in order and nothing live conflicts; otherwise nothing changes and the error is the first fault or the oldest live conflict |
| `Leases.LeaseManager.Release` | core/orchestrator/lease-manager.ts:189-202 | an active lease ends and nothing else changes; unknown and ended ones are refused |
| `Leases.LeaseManager.ReleaseForTask` | core/orchestrator/lease-manager.ts:205-219 | the loop ends exactly the active leases of the task and returns them in order |
| `Leases.LeaseManager.ExpireStale` | core/orchestrator/lease-manager.ts:250-267 | the loop ends exactly the active leases whose time is up and returns their ids in order |
| `Onboarding.MilestonesInOrder` | contracts/onboarding.ts:82-120 | between any two moments of any run the milestones above the first status are passed in order, up to that of the last |
| `Onboarding.ReadyNeedsEveryStage` | contracts/onboarding.ts:82-120 | after any visit to draft, ready is reached only through all the stages, in order |
| `Onboarding.NoEditAfterProvisioning` | contracts/onboarding.ts:112-136 | once provisioning has begun no editable status is ever visited again |
| `Onboarding.RecoverableIff` | contracts/onboarding.ts:77-120 | ready stays within reach of every status but cancelled |
| `Onboarding.TerminalIff` | contracts/onboarding.ts:138-141 | the terminal statuses are exactly those without a way on |
| `Onboarding.CancellableIff` | contracts/onboarding.ts:82-120 | giving up is possible except while provisioning or validating and at the ends |
| `Onboarding.BackToDraftIff` | contracts/onboarding.ts:82-136 | going back to the draft or its source is possible exactly in the editable statuses and from an approval |
| `Onboarding.FailureEnteredIff` | contracts/onboarding.ts:82-120 | a failure is entered only from the work that failed |
| `Onboarding.WorkEnteredIff` | contracts/onboarding.ts:82-120 | work begins exactly where it comes next, or again after it failed; an analysis also once it is done |
| `Onboarding.ResultEnteredIff` | contracts/onboarding.ts:82-120 | results are reached exactly from the work itself, or on the way back from what builds on them |

## Left out

- GraphValidation.ValidateWorkflowGraph: not the order of the issues, how often one is repeated, or their messages; a
  graph with several cycles is reported at one node of one of them, as in the source.
- CanonicalGraphs.CanonicalGraphJsonInjective: keys that look like array indices, which JavaScript lists first; the keys
  of graphs are fixed words.
- CanonicalJson.ParseStringified: numbers that are not whole, which a normalised graph does not contain, and lone
  surrogates.
- Globs.GlobToRegExp: characters are Unicode scalar values where the source works on UTF-16 units, and case is folded
  for ASCII letters.
- Normalization.NormalizeWorkflowGraph: negative zero as a coordinate, and lengths counted in UTF-16 units.
- Summation.SumError: underflow and overflow; and it asks that `u` be at most a hundredth and `n` times `u` squared too,
  which double precision meets for any list that fits in memory.
- Budget.EvaluateBudget: amounts are real numbers, without rounding, and the text of the detail is not modelled.
- Versions.ParseVersion: numbers beyond the safe integers, which JavaScript would round.
- Redaction.Redact: an own property named `__proto__`, and lengths counted in UTF-16 units; keys themselves are not
  redacted, as in the source.
- Pagination.Paginate: the sum of offset and size is exact, and the printing of numbers is a parameter, of which only
  the whole part is used, for numbers from one up to the exponents.
- WorkflowEngine.WorkflowRun.Dispatch: counters of handoffs and tool calls are answers of the services rather than
  fields, and so are the clock, the choice of an agent and the outcome of a task.
- WorkflowConvergence.ConvergesIff: retry limits are finite numbers (one that is not a number allows no pass and fails
  every run at once), and the product in the ceiling is not rounded.
- Leases.LeaseManager.Acquire: the clock shows whole milliseconds since 1970, up to a day before the last date there is;
  of live conflicts granted at the same instant the first is reported, where the source compares ids; instants are
  numbers where the source stores texts.
- Leases: the listing of live leases for display, and the Firestore repository, for which the in-memory one stands.
- WorkflowDrafts.ValidateWorkflowDraft: an absent list of expected tools and an empty one are the same.
- The credential expressions of graph validation are a predicate on texts given with the context.
- Planning from an objective, audit events, handoff proposals and stored results of the workflow engine: calls into
  services that decide nothing here.
- HTTP routing, Firestore and Firebase wiring, and the ports whose implementations live elsewhere: no property is
  decided by them.
- Session, job, plan, assignment and workspace transition tables, flat field validators and enumerations: finite or
  single-branch checks.
- Capability matching in contracts/capabilities.ts: list filtering.
