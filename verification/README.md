# Arcadia, verified

Arcadia is a Kubernetes operator for LLM applications. This project models the parts of it in which something can go
wrong in an interesting way, and proves what they promise: graph execution with a re-queuing worklist, a reconciler
that embeds files one by one, the synchronisation and concurrent copying of dataset versions, an LRU cache, the phase
protocol of RAG evaluations, and five smaller algorithms on lists.

`dafny verify dfyconfig.toml` checks everything. Nothing here is executed.

## How it is built

Code that changes state is written with methods, loops and classes, and every such method is proved against a
function of its inputs and of the old state, or, where Go's map iteration leaves a choice, against a relation that
holds for every choice. Everything that spans several calls, such as invariants of all runs,
termination, convergence or independence of order, is then proved about those functions.

| files | what they model |
|---|---|
| `WorkGraph`, `AppRuntime`, `RunOutcomes`, `ValidateNodes` | the application graph: building it, running it, how runs end, checking it |
| `KnowledgeBase`, `KnowledgeBaseSync`, `KnowledgeBaseController` | the knowledge base reconciler: one turn as a function, and the program that computes it |
| `KnowledgeBaseEntries`, `KnowledgeBaseOutcomes`, `KnowledgeBaseEdits` | what becomes of single entries: carried over, handled, skipped, retried, checked again after an edit |
| `KnowledgeBaseRuns`, `KnowledgeBaseEmbedding`, `KnowledgeBaseProgress`, `KnowledgeBaseWitnesses` | all runs of it: safety, which files were embedded, convergence, and runs in which it errs |
| `FileStatuses`, `Sorting`, `VersionFiles`, `VersionSync`, `VersionedDatasets`, `VersionLaws` | dataset versions: what the status stands for, the synchronisation, the entry of results |
| `Executor`, `CopyRuns`, `CopyJobs`, `Scheduler` | copy jobs, all interleavings of sending and finishing them, the objects they touch, the ready condition |
| `Lru`, `LruRuns` | the cache as a map and a list, and sequences of calls |
| `Rag`, `RagRuns`, `RagClaims`, `RagRounds` | RAG evaluations: the handlers, all interleavings of reconciles, jobs and resets, the claim, whole rounds |
| `Conditions`, `PgVector`, `Rbac`, `Pdf` | condition lists, document de-duplication, the sorted subject list, the page splitter |
| `Strings`, `BinarySearch`, `Options`, `FilePhases` | string order, prefixes, `sort.Search`, shared datatypes |

External answers (the store's checksum, the embedder's success, what the cluster says about a claim or a job, the order
in which Go iterates over a map, the outcome of a status patch) are parameters or arbitrary choices, so each statement
holds for all of them.

## Where the code does not do what its text says

Each of these is stated and proved: one lemma gives the exact condition, another one an input or a run.

* A cycle is not reported. Without an early exit the worklists (`pkg/appruntime/app_runtime.go:161`,
  `controllers/base/application_controller.go:263`) run empty exactly if no reachable node lies on a cycle or behind
  one (`DrainsIffUnobstructed`); with early exits, a run ends exactly then or if a node halts it (`EndsIff`), and the
  check of a graph with such a node ends exactly if an unready node is found among the others (`CycleIsNotReported`).
  `CyclePasses` is a specification with a cycle that passes all rules.
* The rule that the ending node points to the output only is tested on the last node that has successors
  (`controllers/base/application_controller.go:239`). A second successor of the ending node is refused exactly if no
  later node has successors (`ForkRefusedIff`); `EndingMayPointElsewhere` is a specification that passes and breaks it,
  `KeptRuleCanBeRefused` one that keeps it and is refused, and `RuleSixPartsIff` says when either happens.
* A file can be marked as succeeded although it was never embedded, because its checksum is recorded before the
  embedding (`controllers/base/knowledgebase_controller.go:505-516`). `SucceedsUnembeddedIff` tells at which step of a
  run this first happens; `RetriedWithoutEmbedding` is a run from a new knowledge base.
* If the write that is to show a knowledge base ready is refused, the reconciler has noted it as ready all the same and
  does not try again (`controllers/base/knowledgebase_controller.go:331-334` and 383-398). `Converges` and
  `AnnouncesIff` give the exact condition, `ReadinessCanBeLost` a run.
* A RAG job that completes between its creation and the status patch after it leaves the evaluation stuck
  (`controllers/evaluation/rag_controller.go:379-388`, which asks the question in a comment;
  `FastCompletionIsLostIff`, `FastCompletionCanBeLost`). A phase move that a reset overtakes skips phases
  (`MovesOneLinkIff`, `ResetCanBeOvertaken`), and one that opens the phase after a job's phase skips completions; and
  a completion is entered without asking whose it is, be it of another phase or of a job from before a reset
  (`controllers/evaluation/rag_controller.go:434-467`). `HonestUpToHarm` says exactly which steps do this harm,
  `ResetCanHarm` and `LateReportCanMislead` are runs. For the same two reasons the download can open although nobody has
  looked for a claim (`ClaimedUpToSkip`, `ClaimCanBeSkipped`). After the loss of the volume claim the evaluation is to be run
  again, but does not get beyond the download if the download job is there and every job had ended before
  (`LostClaimBlocksIff`, `LostClaimCanBlock`).
* A dataset version that was ready once stays ready, whatever becomes of files added later
  (`pkg/scheduler/scheduler.go:102-107`; `ReadyIff`, `OnceReadyStaysReady`, `ReadyDespiteFailure`).
* The object that a job writes or removes does not depend on the source of the file
  (`pkg/scheduler/executor.go:61` and 121-123). So the removal of a file that is named no more can delete the copy of a
  file that is kept: exactly if their paths are equal up to a leading slash (`RemovesCopyIff`, `RemovalsSpareKeptIff`,
  `RemovalCanHitKept`).
* The copy of a file whose path starts with a slash can be entered for another file (`EnteredAtItsFileIff`,
  `RunsAreRightIff`, `SlashLeadsAstray`).
* The removal of an account that has no permission takes the permission of the next one in the list
  (`RemovesOnlyTheAccountIff`, `RemovalCanHitAnother`).
* The page splitter panics on some texts (`LoadsIff` says on which, `BrokenOffTextPanics` is one), and tells a last page
  without marker as the last of as many pages as were found, not of as many as the file has (`LoadsRest`).
* The comments on `SetConditions` and on `ConditionedStatus.Equal` (`api/base/v1alpha1/condition.go:160-162` and
  185-186) say that transition times are ignored; the code compares them (`SetChangesNothingIff`,
  `DepartsFromCommentIff`, `TimesCount`).

## Model

| member | source | states |
|---|---|---|
| WorkGraph.DrainsIffUnobstructed | pkg/appruntime/app_runtime.go:156-208 | the worklist runs empty if and only if no node reachable from the starting nodes lies on, or downstream of, a directed cycle |
| WorkGraph.TangledNeverEmpties | pkg/appruntime/app_runtime.go:161-178 | one reachable node behind a cycle keeps the list non-empty after every number of turns, even if the cycle itself is not reachable |
| WorkGraph.MeasureFalls | pkg/appruntime/app_runtime.go:161-208 | every turn on an unobstructed graph lowers the pair of the number of unvisited nodes and the place of the first ready entry, or the total path weight of the list once all entries are visited |
| WorkGraph.FirstReadyMoves | pkg/appruntime/app_runtime.go:165-178 | a turn that does not visit moves the first ready entry one place forward |
| WorkGraph.WeightFalls | pkg/appruntime/app_runtime.go:205-207 | once all entries are visited, a turn lowers the number of paths that the list still stands for, although successors are pushed again |
| WorkGraph.EventuallyEmpty | pkg/appruntime/app_runtime.go:161-208 | on an unobstructed graph the list is empty after some number of turns |
| WorkGraph.VisitedUntangled | pkg/appruntime/app_runtime.go:165-178 | no visited node lies on or behind a cycle |
| WorkGraph.FindReady | pkg/appruntime/app_runtime.go:161-178 | as long as a queued node off the cycles is unvisited, some entry of the list can be visited |
| WorkGraph.EmptyMeansDone | pkg/appruntime/app_runtime.go:161-208 | at the empty list the visited nodes are exactly the reachable ones and none of them is behind a cycle |
| WorkGraph.RunsInOrder | pkg/appruntime/app_runtime.go:161-178 | after any number of turns, and whatever the order of edges and starting nodes, the visited nodes are run once each, after all their predecessors |
| WorkGraph.AcyclicRunsEveryNodeOnce | pkg/appruntime/app_runtime.go:133-137 | on an acyclic graph the loop ends, and has run every node exactly once, also those that are not starting nodes |
| WorkGraph.VisitedIff | pkg/appruntime/app_runtime.go:161-208 | on every graph, with cycles or without, exactly the nodes that neither lie on a cycle nor behind one are visited after some number of turns |
| WorkGraph.UntangledMakesProgress | pkg/appruntime/app_runtime.go:161-178 | while such a node is unvisited, every turn visits a node or brings the first ready entry forward |
| AppRuntime.Application.Init | pkg/appruntime/app_runtime.go:83-140 | succeeds exactly if all nodes can be made and all edges are declared; then next is as specified, prev holds each edge as often as next, for every order of map iteration, and the starting nodes are the input and all nodes without predecessors, once each |
| AppRuntime.Application.CreateNodes | pkg/appruntime/app_runtime.go:100-114 | fails exactly if some node cannot be made; else the nodes exist without edges, the input starts, and the ending node is the last one, other than the input, that points to the output |
| AppRuntime.Application.LinkNext | pkg/appruntime/app_runtime.go:116-125 | fails exactly if an edge points to an unknown node; else every node has its edges in the given order |
| AppRuntime.Application.LinkPrev | pkg/appruntime/app_runtime.go:127-131 | for every order of map iteration each node knows its predecessors, once for each edge, and no successor list changes |
| AppRuntime.Application.CollectStarting | pkg/appruntime/app_runtime.go:133-137 | for every order of map iteration the starting nodes are the input and the nodes without predecessors, once each |
| AppRuntime.InitIsWellFormed | pkg/appruntime/app_runtime.go:100-137 | a graph that Init built meets what the results on the worklist ask for |
| AppRuntime.Application.Walk | pkg/appruntime/app_runtime.go:156-208 | the loop with its cursor, visited set and threaded arguments computes the abstract run, with its early exits |
| AppRuntime.Application.Turn | pkg/appruntime/app_runtime.go:161-208 | one turn of the loop is one step of the abstract run, whichever exit it takes |
| AppRuntime.Application.Cleanup | pkg/appruntime/app_runtime.go:180 | deferred calls are made last one first |
| AppRuntime.Application.Run | pkg/appruntime/app_runtime.go:142-223 | the result is that of the abstract run, and on every exit each started node is cleaned up, the last started first |
| AppRuntime.Application.MustWait | pkg/appruntime/app_runtime.go:165-178 | an entry is put back exactly if some predecessor has not been visited |
| AppRuntime.ExecFaithful | pkg/appruntime/app_runtime.go:161-208 | in every run, with failing nodes or without, nodes are started once each and after their predecessors, and the arguments are those of running the started nodes in sequence |
| AppRuntime.ExecFollowsList | pkg/appruntime/app_runtime.go:181-202 | a node that fails or answers early only cuts the walk short; up to then it is the walk without failures |
| AppRuntime.RunsToTheEnd | pkg/appruntime/app_runtime.go:156-208 | on an unobstructed graph every run ends, halted by a node or having started every reachable node |
| AppRuntime.EndsIff | pkg/appruntime/app_runtime.go:161-208 | a run ends exactly if nothing reachable lies on a cycle or behind one, or the walk without exits comes to a node that halts |
| AppRuntime.HaltsIff | pkg/appruntime/app_runtime.go:181-202 | a run is halted by a node exactly if running the nodes of the walk without exits one after another fails or answers early at some point |
| RunOutcomes.RunEndsByNode | pkg/appruntime/app_runtime.go:181-202 | in terms of what each node was given and returned: every started node but the last let the run go on; the run fails with a node exactly if that one, the last, returned an ordinary error, and answers with the message of the last one if that missed a document while no text stood under the answer |
| RunOutcomes.HaltedByLast | pkg/appruntime/app_runtime.go:181-202 | and it is left early at a node exactly in these two cases; otherwise the arguments are those that the last node returned |
| RunOutcomes.RunAnswers | pkg/appruntime/app_runtime.go:209-223 | a run that comes to the end of the list has no answer exactly if the last arguments hold none and nothing is streamed; else it has their answer and their references |
| AppRuntime.ReverseIsMirror | pkg/appruntime/app_runtime.go:180 | the deferred calls touch every started node exactly once, in reverse order |
| ValidateNodes.Validate | controllers/base/application_controller.go:185-293 | a specification that breaks a rule, or whose graph cannot be built, is refused with a verdict that names something that is wrong; for any other the verdict is ready exactly if the list over its graph ran empty and no visited node is unready, and an unready verdict names an unready node |
| ValidateNodes.CheckRules | controllers/base/application_controller.go:188-249 | the checks pass exactly the specifications that keep the rules as implemented, and any other verdict names something that is wrong |
| ValidateNodes.CheckShape | controllers/base/application_controller.go:191-220 | passes exactly if names are unique and there is one input with successors and one output without |
| ValidateNodes.CheckEnding | controllers/base/application_controller.go:222-249 | passes exactly if one edge points to the output, from a chain or an agent, and the last node with successors has one |
| ValidateNodes.ShapeIff | controllers/base/application_controller.go:191-220 | the first rules, without counters: names differ, exactly one node is the input, and points somewhere, and exactly one is the output, and does not |
| ValidateNodes.StartsIff | pkg/appruntime/app_runtime.go:109-137 | the starting nodes of an application that keeps these rules are the input and the nodes to which no node points |
| ValidateNodes.EndingIff | controllers/base/application_controller.go:225-249 | the nodes that may point to the output are those with a group that are of the group of chains or of agents, or agents by their kind |
| ValidateNodes.CheckNodes | controllers/base/application_controller.go:258-291 | ready exactly if the list runs empty and no visited node is unready |
| ValidateNodes.ReadinessWalk | controllers/base/application_controller.go:258-289 | the readiness check visits what a run would, in the same order, up to the first unready node |
| ValidateNodes.ValidatedRunsEnd | controllers/base/application_controller.go:258-293 | every run of a validated application ends, in dependency order and whatever its nodes do, and no reachable node is behind a cycle or was unready |
| ValidateNodes.CycleIsNotReported | controllers/base/application_controller.go:263-288 | with a reachable node on a cycle or behind one the check never says ready, and it ends exactly if there is an unready node that neither lies on a cycle nor behind one |
| ValidateNodes.ReadyIff | controllers/base/application_controller.go:258-293 | given enough turns the check says ready exactly if no reachable node is unready, on a cycle or behind one |
| ValidateNodes.ReportsIff | controllers/base/application_controller.go:270-282 | a node is reported exactly if some unready node neither lies on a cycle nor behind one |
| ValidateNodes.CyclePasses | controllers/base/application_controller.go:188-249 | a specification with a cycle keeps all rules, and the check of its graph does not end even if all nodes are ready |
| ValidateNodes.LastPointsOnlyToOutput | controllers/base/application_controller.go:223-249 | the ending node of a specification that passes points to the output only, if no later node has successors |
| ValidateNodes.ForkRefusedIff | controllers/base/application_controller.go:223-249 | for a specification that passes, any second successor of the ending node is refused if and only if no later node has successors |
| ValidateNodes.EndingMayPointElsewhere | controllers/base/application_controller.go:239-249 | a specification that passes although its ending node has a second successor |
| ValidateNodes.RuleSixPartsIff | controllers/base/application_controller.go:223-249 | given rule 5, a specification is refused although it keeps the rule of the message exactly if its ending node has one successor and the last node with successors has several, and passes although it breaks the rule exactly if it is the other way round |
| ValidateNodes.KeptRuleCanBeRefused | controllers/base/application_controller.go:239-249 | a specification that is refused although its ending node points to the output only |
| KnowledgeBaseSync.SyncStatus | controllers/base/knowledgebase_controller.go:696-776 | the list built with recorded slots is, for pairwise distinct sources and paths, each wanted file with what the old status knows of it: unchanged at the same version, in process at another one, new if unknown; a write is asked for exactly if files differ |
| KnowledgeBaseSync.BuildList | controllers/base/knowledgebase_controller.go:696-736 | for distinct sources and paths the list has a new entry for each file, and the recorded slots are exactly the places of the files |
| KnowledgeBaseSync.MergeGroup | controllers/base/knowledgebase_controller.go:738-756 | one old group more is copied to its slots |
| KnowledgeBaseSync.Differ | controllers/base/knowledgebase_controller.go:684-694 | differs exactly if some list length or some file entry does |
| KnowledgeBaseSync.MergeStep | controllers/base/knowledgebase_controller.go:738-752 | one old entry changes exactly the new entry of its source and path |
| KnowledgeBaseEntries.RebuildCarries | controllers/base/knowledgebase_controller.go:738-756 | every wanted file, in order, keeps its known entry unchanged at the version asked for, keeps it but for version and phase at another one, and gets an empty pending entry if it is unknown |
| KnowledgeBaseEntries.SameSourceIff | controllers/base/knowledgebase_controller.go:706-711 | two sources are one exactly if kind, name and namespace agree, a missing namespace being that of the knowledge base |
| KnowledgeBaseController.Reconciler.Reconcile | controllers/base/knowledgebase_controller.go:102-202 | one call computes one turn of the state machine, with all its early exits |
| KnowledgeBaseController.Reconciler.SetCondition | controllers/base/knowledgebase_controller.go:383-398 | sets the condition, and notes the knowledge base as ready exactly for a true ready condition |
| KnowledgeBaseController.Reconciler.PatchStatus | controllers/base/knowledgebase_controller.go:204-222 | nothing is written if nothing changed, or if an unready status would overwrite a noted readiness |
| KnowledgeBaseController.RetryFailed | controllers/base/knowledgebase_controller.go:172-184 | puts failed entries back to be processed and tells whether there was one |
| KnowledgeBaseController.Reconciler.ManualUpdate | controllers/base/knowledgebase_controller.go:163-189 | the update annotation clears all entries, or puts the failed ones back if there are any, or is removed |
| KnowledgeBaseController.Reconciler.ReconcileGroups | controllers/base/knowledgebase_controller.go:290-380 | dependencies are checked in order, then files are worked on unless the knowledge base is known as ready |
| KnowledgeBaseController.Reconciler.WalkFiles | controllers/base/knowledgebase_controller.go:336-380 | the nested loops work on the first open entry and conclude when there is none |
| KnowledgeBaseRuns.RunsAreSafe | controllers/base/knowledgebase_controller.go:102-202 | in all runs with edits, annotations, restarts and failing patches: if ready is shown for the current generation, the status is in line with the specification and no entry is unfinished |
| KnowledgeBaseRuns.ReadyMeansCovered | controllers/base/knowledgebase_controller.go:337-380 | in every reachable state that shows ready for the current generation, every file of every sourced group has an entry under its own source, at its version, that succeeded or was skipped, although sources are never compared |
| KnowledgeBaseRuns.SuccessWasEmbedded | controllers/base/knowledgebase_controller.go:505-543 | in every run a succeeded file whose entry shows a checksum was embedded with it, or its entry was put back with that checksum after it had failed or been skipped; entries without a checksum are exempt |
| KnowledgeBaseRuns.RunsAreExplained | controllers/base/knowledgebase_controller.go:744-749 | the invariant behind it: also an entry in process with a checksum has an embedding or a put-back to show |
| KnowledgeBaseOutcomes.TurnSettles | controllers/base/knowledgebase_controller.go:349-361 | a turn handles the first open entry only, and over the answers of the store: it fails exactly if stat, tags, reading or handling failed, is skipped exactly if handling said so, succeeds exactly if the checksum was on record or it was embedded, and stays in process exactly without a usable source |
| KnowledgeBaseOutcomes.TurnTakesUp | controllers/base/knowledgebase_controller.go:343-348 | a pending entry only becomes one in process |
| KnowledgeBaseOutcomes.SkipsAreTold | controllers/base/knowledgebase_controller.go:531-534 | in every run a skipped file was reported skipped with the checksum of its entry |
| KnowledgeBaseOutcomes.ReadyMeansJustified | controllers/base/knowledgebase_controller.go:337-380 | in every run, when readiness is shown each file asked for is at its version and was embedded, put back by hand or reported skipped |
| KnowledgeBaseOutcomes.NoWorkUnprovided | controllers/base/knowledgebase_controller.go:290-329 | while a dependency is not set, missing, unreadable or not ready a turn does not depend on the store, and embeds nothing |
| KnowledgeBaseOutcomes.ShowsUnprovided | controllers/base/knowledgebase_controller.go:290-329 | it then takes readiness away, as pending if something is missing and as an error else, and leaves the entries |
| KnowledgeBaseEdits.NewVersionIsChecked | controllers/base/knowledgebase_controller.go:696-776 | after an edit that asks for another version of a known file, whatever else it changes, favourable turns bring the reconciler to a stat of that file, also when the comparison, which ignores sources, first takes the old status for current |
| KnowledgeBaseEdits.OpenIsChecked | controllers/base/knowledgebase_controller.go:337-364 | from a rebuilt status every open file is checked within as many favourable turns as there is work |
| KnowledgeBaseEdits.UpdateStartsOver | controllers/base/knowledgebase_controller.go:163-189 | an update annotation other than the one for failed files makes every file new again in three accepted writes |
| KnowledgeBaseEdits.RetryPutsBack | controllers/base/knowledgebase_controller.go:172-189 | the annotation for failed files puts exactly these back, without their messages, and is then taken away |
| KnowledgeBaseEdits.NewBaseIsPending | controllers/base/knowledgebase_controller.go:149-153 | the first turn of a new base only shows that it is pending |
| KnowledgeBaseEdits.WrittenIff | controllers/base/knowledgebase_controller.go:204-222 | a status that differs is written exactly if the write is accepted and it does not hide a noted readiness |
| KnowledgeBaseEmbedding.SucceedsUnembeddedIff | controllers/base/knowledgebase_controller.go:505-543 | in every run up to the first misjudged entry all succeeded files were embedded with the checksums they show, and a further step ends this exactly if it takes the checksum on record of a content never embedded for a sign that it was |
| KnowledgeBaseEmbedding.StepBackedIff | controllers/base/knowledgebase_controller.go:102-202 | the step behind it, for every event in every state |
| KnowledgeBaseWitnesses.RetriedWithoutEmbedding | controllers/base/knowledgebase_controller.go:163-189 | a run from a new knowledge base that ends, after a retry, with a succeeded file and nothing embedded |
| KnowledgeBaseProgress.RebuildTwice | controllers/base/knowledgebase_controller.go:696-776 | syncStatus is idempotent |
| KnowledgeBaseProgress.TurnDoesWork | controllers/base/knowledgebase_controller.go:400-545 | with work left, a turn moves exactly one entry and lowers the work, two for a pending and one for a processing file, by one |
| KnowledgeBaseProgress.TurnAnnounces | controllers/base/knowledgebase_controller.go:366-380 | with no work left, a turn shows ready if and only if no file has failed |
| KnowledgeBaseProgress.RefusedWork | controllers/base/knowledgebase_controller.go:349-364 | a turn whose write is refused while there is work changes nothing |
| KnowledgeBaseProgress.AnnouncesIff | controllers/base/knowledgebase_controller.go:331-380 | when nothing is left to do and no file failed, a favourable turn shows ready exactly if the reconciler has not noted it before |
| KnowledgeBaseProgress.RefusedAnnouncement | controllers/base/knowledgebase_controller.go:376-398 | the announcing turn, if its write is refused, leaves the note of readiness and nothing else |
| KnowledgeBaseProgress.NotedForGood | controllers/base/knowledgebase_controller.go:331-334 | a note without a shown readiness keeps it from being shown through any number of turns that find their dependencies |
| KnowledgeBaseProgress.Converges | controllers/base/knowledgebase_controller.go:337-380 | from a rebuilt status, with accepted and refused writes and whatever happens to the single files, as many accepted writes as there is work finish all files; if none failed, readiness is shown from then on exactly if the write of the next turn is accepted |
| KnowledgeBaseWitnesses.ReadinessCanBeLost | controllers/base/knowledgebase_controller.go:331-334 | a run from a new knowledge base to one that is finished without failures and that no favourable turn shows ready |
| VersionedDatasets.VersionedDataset.CopiedFileGroup2Status | pkg/versioneddataset/versioneddataset.go:121-238 | the new status is sorted by source and path and lists exactly the wanted files with what was known of them, update is set exactly if a source or path is new, and the deleted list holds exactly the known files that are wanted no more; a version that is being deleted gives up all files |
| VersionSync.GenerateDatasourceFileStatus | pkg/versioneddataset/versioneddataset.go:74-118 | one item for each source with its paths in order; whatever was asked for, all items carry one namespace |
| VersionSync.GenerateInheritedFileStatus | pkg/versioneddataset/versioneddataset.go:33-72 | the item of the inherited version, with the listed objects, cut and in path order |
| VersionSync.MergeFiles | pkg/versioneddataset/versioneddataset.go:159-170 | known files replace the new ones in place, the rest is left over, and an unknown one is noticed |
| VersionSync.MergeSources | pkg/versioneddataset/versioneddataset.go:146-188 | after all items the list is the overlay of the new files with the known ones, and the deleted list what is gone of these sources |
| VersionSync.AddLeftovers | pkg/versioneddataset/versioneddataset.go:190-204 | sources that are wanted no more are handed out whole |
| VersionedDatasets.KnownFiles | pkg/versioneddataset/versioneddataset.go:128-138 | the nested maps hold the stored files by source and path |
| VersionedDatasets.VersionedDataset.StartSync | pkg/versioneddataset/versioneddataset.go:210-232 | the ready condition is set to syncing if there is no condition, or if the first ready condition is not true |
| VersionFiles.FilesAreConserved | pkg/versioneddataset/versioneddataset.go:128-204 | every known file is either carried over unchanged or handed out unchanged for deletion, and never both |
| VersionFiles.NewFilesAreProcessing | pkg/versioneddataset/versioneddataset.go:105-110 | a file that was not known starts in process, is reported as an update and is never in the deleted list |
| VersionFiles.SyncedTwice | pkg/versioneddataset/versioneddataset.go:121-238 | the same synchronisation again reports no update and no deletion and gives the same list |
| VersionLaws.SyncedFilesIff | pkg/versioneddataset/versioneddataset.go:34-204 | after a synchronisation the status has exactly the files that a group asks for or whose objects lie under the prefix of the version inherited from; exactly the other known files are handed out for deletion |
| VersionLaws.UpdateIff | pkg/versioneddataset/versioneddataset.go:148-176 | an update is reported exactly if the status got a source or a file that it did not have |
| VersionLaws.SyncIsAnnounced | pkg/versioneddataset/versioneddataset.go:210-232 | the syncing condition is set on a status without conditions, and with another message on one that is not ready; nothing else changes, nor whether the version is ready |
| VersionLaws.RemovalsSpareKeptIff | pkg/scheduler/executor.go:53-136 | the removals spare all kept files exactly if no path handed out is that of a kept file, up to a leading slash |
| VersionLaws.RemovalCanHitKept | controllers/base/versioneddataset_controller.go:105-130 | a synchronisation that hands out a file whose removal deletes the object of a kept file, which is not copied again |
| FileStatuses.OneList | pkg/versioneddataset/versioneddataset.go:206-208 | the sorted status is determined by the files it stands for, whatever the order of map iteration |
| VersionedDatasets.VersionedDataset.UpdateFileStatus | pkg/versioneddataset/versioneddataset.go:240-271 | on a sorted status two binary searches do what two scans for the place would, and only a file in process takes a result |
| VersionedDatasets.UpdateHitsNamed | pkg/versioneddataset/versioneddataset.go:242-252 | a file that the status names is the one that is updated |
| VersionedDatasets.FindsItIff | pkg/versioneddataset/versioneddataset.go:242-252 | the searches end at a file of that source and path exactly if there is one |
| VersionLaws.ResultIsTakenIff | pkg/versioneddataset/versioneddataset.go:257-271 | a named file takes a success or a failure, with its message, exactly while it is in process; else it refuses it and nothing changes |
| VersionLaws.NotFoundIff | pkg/versioneddataset/versioneddataset.go:241-255 | a source is not found exactly if all names are smaller, a file exactly if all paths of the source found are, and then nothing changes |
| VersionedDatasets.UpdateKeepsSorted | pkg/versioneddataset/versioneddataset.go:257-267 | an update keeps the order on which the searches rely |
| Executor.CopyExecutor.GenerateJob | pkg/scheduler/executor.go:53-136 | up to the file at which the run is cancelled or the source that cannot be reached, one job for each file in process whose path does not end with a slash, in order; for removals one job for each such file |
| Executor.CopyExecutor.OnFinish | pkg/scheduler/executor.go:165-187 | the outcome is entered at the path that the job brings back; removals enter nothing |
| Executor.PathComesBack | pkg/scheduler/executor.go:80-125 | the round trip: the path that a job brings back is that of its file without a leading slash, for both kinds of sources |
| Executor.ResultFindsFile | pkg/scheduler/executor.go:165-187 | the outcome of a job is entered at its file, and nothing else changes, exactly if the search for the path brought back ends at the file |
| Executor.FindsItselfIff | pkg/scheduler/executor.go:114-119 | the search for the path without its leading slash ends at the file exactly if there is no such slash or the path still sorts to its place without it |
| Executor.EnteredAtItsFileIff | pkg/scheduler/executor.go:114-187 | the outcome of a job is entered at its own file and nowhere else exactly under that condition |
| Executor.SlashLeadsAstray | pkg/scheduler/executor.go:119 | two files for which the result of one is entered at the other |
| CopyRuns.ResultsStandAtTheirFiles | pkg/scheduler/executor.go:102-133 | in every interleaving of sending and finishing, each result so far stands at its own file and every other file is untouched |
| CopyRuns.RunsAreRightIff | pkg/scheduler/executor.go:102-187 | all interleavings enter all results at their own files exactly if every file that gets a job finds itself |
| CopyRuns.OneJobEach | pkg/scheduler/executor.go:102-133 | a complete run has sent exactly one job for each file that gets one, although results come in while the list is read |
| CopyRuns.OrderDoesNotMatter | pkg/scheduler/executor.go:165-187 | the final status depends on the outcomes of the jobs, not on the order in which they finish |
| CopyRuns.LeftInProcessIff | pkg/scheduler/executor.go:109-117 | after a complete run a file is in process exactly if it was and its path ends with a slash |
| CopyRuns.SyncedIsAddressable | pkg/versioneddataset/versioneddataset.go:206-237 | the status that a synchronisation makes is one that can be copied from |
| CopyRuns.PlainPathsFindThemselves | pkg/scheduler/executor.go:119 | if no path has a leading slash every file finds itself |
| CopyJobs.JobsOfFiles | pkg/scheduler/executor.go:53-136 | the generated jobs are those of exactly the files due; each goes to the prefix of this version and the path without leading slash, and comes from the datasource or from the prefix of the version inherited from |
| CopyJobs.RemovesCopyIff | pkg/scheduler/executor.go:119-130 | a removal deletes the object of a copy exactly if both paths agree up to a leading slash, whatever the sources |
| CopyJobs.OutcomeShows | pkg/scheduler/executor.go:165-187 | after any run a file shows the outcome of its own job, with the message of a failure, and is unchanged without one |
| CopyJobs.RemovalsEnterNothing | pkg/scheduler/executor.go:165-169 | the result of a removal is entered nowhere |
| CopyJobs.WrittenIff | pkg/scheduler/executor.go:102-163 | the objects that the successful jobs of a run have written are exactly those of the files it has copied |
| CopyJobs.HeirSeesCopies | pkg/versioneddataset/versioneddataset.go:34-58 | a version that inherits from this one, and lists what a run has written, gets exactly the files that the run has copied |
| Scheduler.FileScheduler.Start | pkg/scheduler/scheduler.go:79-141 | what is written to the store after a run: nothing after an error, for removals, or if the object has changed meanwhile; a deleted object is let go; else the files of the run, and a condition that says that all are there or names the last missing one of the first such source, unless a success was on record |
| Scheduler.Conclude | pkg/scheduler/scheduler.go:102-133 | the condition is computed and set only if no success is on record |
| Scheduler.CheckFiles | pkg/scheduler/scheduler.go:111-131 | the condition is success, or names the last file that did not succeed of the first source with such a file |
| Scheduler.ReadyIff | pkg/scheduler/scheduler.go:101-133 | a version is ready after the copying exactly if all files succeeded or a success was on record |
| Scheduler.OnceReadyStaysReady | pkg/scheduler/scheduler.go:102-107 | a recorded success survives the next synchronisation and all failures after it |
| Scheduler.ReadyDespiteFailure | pkg/scheduler/scheduler.go:102-107 | a version whose second file fails and that stays ready |
| Scheduler.ReadyAfterCopyingIff | pkg/scheduler/scheduler.go:101-133 | over a whole concurrent run: a version that was never ready becomes ready exactly if every file had succeeded before or its job succeeded |
| Lru.Cache.Set | pkg/cache/lru.go:73-103 | map and list stay one cache of at most limit entries, and the list changes as recency demands, evicting the last |
| Lru.Cache.Get | pkg/cache/lru.go:105-121 | a hit returns the value and moves its entry to the front, a miss changes nothing |
| Lru.Cache.Delete | pkg/cache/lru.go:123-138 | the entry leaves map and list, and nothing else changes |
| Lru.ApplyKeeps | pkg/cache/lru.go:73-138 | no operation makes two entries for a key or more than limit entries |
| Lru.Cache.Evict | pkg/cache/lru.go:90-95 | the last entry of the list leaves the map and the list |
| LruRuns.RunContained | pkg/cache/lru.go:73-138 | fed the same calls, the list of a smaller cache is a subsequence of that of a larger one, with equal values, and their sizes differ by no more than their limits |
| LruRuns.LargerCacheHitsToo | pkg/cache/lru.go:105-121 | every hit of the smaller cache is the same hit of the larger one |
| LruRuns.HitIsLastSet | pkg/cache/lru.go:73-138 | a hit returns the value last set for the key, and it was set after its last deletion |
| LruRuns.HoldsMostRecent | pkg/cache/lru.go:73-121 | without deletions the cache holds exactly the limit most recently touched keys, in that order |
| LruRuns.RecentIsHit | pkg/cache/lru.go:105-121 | without deletions a key is found exactly if it was touched and fewer than limit other keys were touched since |
| LruRuns.DeletedIsGone | pkg/cache/lru.go:123-138 | after its deletion a key is not found, every other one is found as before, and their order stays |
| LruRuns.HitIff | pkg/cache/lru.go:73-138 | with deletions or without: a key is found exactly if it was set, not deleted since, and at every moment since fewer than limit other keys had been touched after its last touch and not deleted again |
| Rag.RAGReconciler.PhaseHandler | controllers/evaluation/rag_controller.go:201-251 | one reconcile computes the patch and the job of its phase, with all error exits |
| Rag.RAGReconciler.InitPVC | controllers/evaluation/rag_controller.go:253-317 | the claim phase, for every answer of the cluster |
| Rag.RAGReconciler.JobGenerator | controllers/evaluation/rag_controller.go:319-411 | open the next phase on a completion, else create the job unless it exists, else switch its suspend flag if the specification wants it otherwise and it has not completed |
| Rag.RAGReconciler.FindLatest | controllers/evaluation/rag_controller.go:450-455 | the loop finds the first of the latest conditions |
| Rag.RAGReconciler.WhenJobChanged | controllers/evaluation/rag_controller.go:434-467 | the latest condition of the job becomes the condition of the evaluation |
| Rag.RAGReconciler.SendPatch | controllers/evaluation/rag_controller.go:342 | a patch overwrites the fields in which it differs from what was read, and leaves the others as they are by then |
| Rag.RAGReconciler.WhenPVCDeleted | controllers/evaluation/rag_controller.go:413-432 | the status is reset and the jobs stay |
| Rag.RAGReconciler.DeleteJobsAndPvc | controllers/evaluation/rag_controller.go:158-199 | jobs, claim and status are removed in this order, up to the first failure |
| RagRuns.MovesOneLinkIff | controllers/evaluation/rag_controller.go:201-411 | in every run a step keeps the phase, moves it one link or resets it, unless and only unless it is a phase move that a reset has overtaken |
| RagRuns.ResetCanBeOvertaken | controllers/evaluation/rag_controller.go:259-267 | a run in which the phase jumps from unset to download |
| RagRuns.OneJobPerPhase | controllers/evaluation/rag_controller.go:349-388 | in every run no phase gets a second job between two resets or deletions of the jobs |
| RagRuns.ReachedMeansReported | controllers/evaluation/rag_controller.go:319-347 | in every run without harmful steps, a phase is reached only after the job of every phase before it, created since the last reset, reported completion |
| RagRuns.HonestUpToHarm | controllers/evaluation/rag_controller.go:319-467 | after such a run a further step lets the phase, or the completion entered for it, go beyond what was reported exactly if it is harmful: it sends a move out of a job's phase that a reset has overtaken, or enters a completion that is not of the current job of an unreported phase |
| RagRuns.ResetCanHarm | controllers/evaluation/rag_controller.go:327-347 | a run in which an overtaken move opens the generation although no download was reported since the reset |
| RagRuns.LateReportCanMislead | controllers/evaluation/rag_controller.go:413-467 | a run in which the download job is left running by a reset, and its completion opens the generation of the new round |
| RagRuns.MovesOnIff | controllers/evaluation/rag_controller.go:319-467 | between reconciles a phase can be left without a reset exactly if a completion is entered, or some job of whatever phase has still to tell its end, or the job of the phase is still to come or being deleted |
| RagRuns.StrandedForever | controllers/evaluation/rag_controller.go:349-467 | a stranded evaluation, in which the job of the phase stays and no job has anything more to tell, stays as it is through all further reconciles and events up to a reset |
| RagRuns.FastCompletionIsLostIff | controllers/evaluation/rag_controller.go:379-388 | a completion told between creation and patch strands the phase, except if the patch would change nothing or another job has still to tell its end; told after the patch it opens the next phase |
| RagRuns.FastCompletionCanBeLost | controllers/evaluation/rag_controller.go:379-388 | a run from the start after which the download is complete and the evaluation stranded in it |
| RagRuns.LostClaimBlocks | controllers/evaluation/rag_controller.go:413-432 | after the loss of the claim an evaluation whose download job exists and whose jobs have all told their end never gets beyond the download until the specification changes |
| RagRuns.LostClaimBlocksIff | controllers/evaluation/rag_controller.go:413-467 | after the loss of the claim the generation can be reached without another reset exactly if there is no download job, or it is being deleted, or some job, of whatever phase, has not told its end |
| RagRuns.LostClaimCanBlock | controllers/evaluation/rag_controller.go:413-432 | a run from the start in which the claim is lost after the download, and which ends stranded in the second round |
| RagClaims.ClaimedUpToSkip | controllers/evaluation/rag_controller.go:253-317 | in every run the download and all later phases are reached only over a claim found in place or created since the last reset, up to the first step that sends an overtaken move or enters a job's completion for the claim phase, and this step is exactly the one with which that ends |
| RagClaims.ClaimCanBeSkipped | controllers/evaluation/rag_controller.go:253-267 | a run in which the download opens again although nobody has looked for a claim |
| RagRounds.EvaluationCanEnd | controllers/evaluation/rag_controller.go:201-411 | a new evaluation can come to its end |
| RagRounds.RemovalLeavesNoTrace | controllers/evaluation/rag_controller.go:158-199 | after the removal of jobs, claim and status the evaluation can come to its end, whatever was there before |
| RagRounds.RemovalGoesInOrder | controllers/evaluation/rag_controller.go:158-199 | jobs, claim and status go in this order; a refusal keeps what comes after it |
| RagRounds.CompletionIsShown | controllers/evaluation/rag_controller.go:327-347 | the completion of the upload completes the evaluation, which then stays as it is |
| RagRounds.FailureIsShown | controllers/evaluation/rag_controller.go:287-377 | a claim or job that cannot be created is shown as a failure, and its phase can still be left |
| RagRounds.NothingIsShown | controllers/evaluation/rag_controller.go:283-310 | what cannot be read or built, or is about to go, changes nothing |
| RagRounds.SuspensionFollows | controllers/evaluation/rag_controller.go:391-408 | the suspend flag is set exactly if the job of the phase is there, stays, has not completed and reads otherwise than the specification wants, and to what that wants |
| Conditions.ConditionedStatus.SetConditions | api/base/v1alpha1/condition.go:163-183 | the loops replace conditions of the given types in place and append new ones |
| Conditions.SetAllIsPutAll | api/base/v1alpha1/condition.go:163-183 | there is at most one condition for each type, and the list stands for the map with the last writes |
| Conditions.GetIsLookup | api/base/v1alpha1/condition.go:150-158 | reading a condition is looking it up in that map |
| Conditions.IsReadyIff | api/base/v1alpha1/condition.go:215-217 | ready is what a ready condition that is true says, and nothing else is |
| Conditions.Equal | api/base/v1alpha1/condition.go:187-213 | comparing sorted copies decides whether two lists stand for the same map, in whatever order they are |
| Conditions.SortedIsCanonical | api/base/v1alpha1/condition.go:200-206 | sorted by type, a map has one list |
| Conditions.DepartsFromCommentIff | api/base/v1alpha1/condition.go:185-213 | the comparison departs from the documented one, which ignores transition times, exactly on lists that this one takes for equal and that differ in the transition time of some type |
| Conditions.TimesCount | api/base/v1alpha1/condition.go:110-117 | two such lists |
| Conditions.SetChangesNothingIff | api/base/v1alpha1/condition.go:160-183 | setting a condition changes nothing exactly if this very condition is there, with its transition time |
| PgVector.PGVectorStore.RemoveExist | pkg/vectorstore/pgvector.go:117-181 | succeeds exactly if the collection exists and no query that is sent fails; then the windows of 100, both early returns and the filter give an outcome as specified, for every order of rows |
| PgVector.PGVectorStore.QueryWindows | pkg/vectorstore/pgvector.go:129-156 | the moving windows find exactly the stored contents, or end because the first window has none |
| PgVector.PGVectorStore.FilterOut | pkg/vectorstore/pgvector.go:163-180 | the documents without an equal row, in order |
| PgVector.DroppedAreStored | pkg/vectorstore/pgvector.go:152-180 | what is left is a subsequence of the input, and every document left out has its content stored |
| PgVector.KnownIsDropped | pkg/vectorstore/pgvector.go:129-180 | if one of the first hundred documents has its content stored, every document of which all stored rows agree with it is dropped |
| PgVector.NothingIsDropped | pkg/vectorstore/pgvector.go:144-150 | if none has, everything is left |
| PgVector.AllFound | pkg/vectorstore/pgvector.go:158-162 | as many contents found as there are documents means that each is stored and no content comes twice |
| PgVector.PGVectorStore.AddDocuments | pkg/vectorstore/vectorstore.go:113-140 | exactly the documents left are added; an error of the de-duplication adds nothing, and one of the insertion at most the documents before it |
| PgVector.SecondAddIsEmpty | pkg/vectorstore/vectorstore.go:113-140 | adding documents of distinct contents a second time adds nothing, however many they are |
| PgVector.AddsNothingIff | pkg/vectorstore/pgvector.go:164-180 | in general it adds nothing, for every order of rows, exactly if contents are distinct or stored metadata agree |
| Rbac.ClusterRoleBinding.EnsureRagRBAC | controllers/base/namespace_controller.go:254-269 | binary search and insertion give the ordered list with the account |
| Rbac.ClusterRoleBinding.Find | controllers/base/namespace_controller.go:254-260 | on an ascending list the search finds where the account stands or belongs |
| Rbac.ClusterRoleBinding.RemoveRagRBAC | controllers/base/namespace_controller.go:279-290 | binary search and removal take out the subject at the place of the account |
| Rbac.EnsuredKeepsOrder | controllers/base/namespace_controller.go:254-269 | the list stays strictly ascending and gains the account and nothing else |
| Rbac.EnsureTwice | controllers/base/namespace_controller.go:261-263 | ensuring again changes nothing |
| Rbac.RemoveUndoesEnsure | controllers/base/namespace_controller.go:279-290 | removing a freshly ensured account restores the list |
| Rbac.ListIsLiveSet | controllers/base/namespace_controller.go:254-290 | after any sequence of ensures and of removals of live accounts the list is the strictly ascending enumeration of the live subjects |
| Rbac.RemovesOnlyTheAccountIff | controllers/base/namespace_controller.go:279-290 | removal takes the account and nothing else exactly if the account is there or would stand at the end |
| Rbac.RemovalCanHitAnother | controllers/base/namespace_controller.go:279-290 | a list from which the removal of an absent account takes another one |
| BinarySearch.Search | controllers/base/namespace_controller.go:254-260 | finds the first index from which a monotone condition holds |
| Pdf.Load | pkg/documentloaders/pdf.go:51-81 | the loop with its advancing start computes the pages, the last page without marker, or the panic |
| Pdf.Index | pkg/documentloaders/pdf.go:56 | the first occurrence, or -1 |
| Pdf.LoadsPages | pkg/documentloaders/pdf.go:51-80 | a text of pages without markers, each followed by its own marker and one character other than P, is split into exactly these pages, in order |
| Pdf.LoadsRest | pkg/documentloaders/pdf.go:57-68 | if the marker of a page and all behind it is missing, that page is the last one, with the whole rest of the text |
| Pdf.MarkerOnlyAt | pkg/documentloaders/pdf.go:55-56 | in the text of the first pages and whatever follows, the marker of a page occurs nowhere but behind that page, although a search runs across page ends and numbers can be prefixes of each other |
| Pdf.LoadsIff | pkg/documentloaders/pdf.go:56-78 | the loader does not panic exactly if the markers it comes to lie in order with a character between, and a missing one leaves a rest of the text |
| Pdf.BrokenOffTextPanics | pkg/documentloaders/pdf.go:57-60 | a text that panics |

## Left out

- Kubernetes clients, watches, finalizers, labels, requeue delays and resource versions, except where a version or a stale patch decides what is written (`Scheduler`, `Rag`).
- Timestamps are opaque. Completion times, probe times and the last update time of a file are left out, as is log output.
- Which nodes exist, how `InitNode` makes them and the recovery from panics in `Run`: a node is a name with an arbitrary behaviour, and neighbours are held by name, not by reference.
- AppRuntime.Application.Init: asks for a fresh application and for unique node names, which the validation demands first; the flag that an application is initialised is set nowhere in the program and is not part of this model.
- AppRuntime.Application.CreateNodes: as for `Init`, unique node names.
- AppRuntime.Application.LinkNext: as for `Init`, unique node names.
- AppRuntime.Application.Run: follows a given number of turns, because the loop need not end; all statements hold for every number. The streaming channel is a flag.
- KnowledgeBaseRuns.RunsAreSafe: like all statements about runs of the reconciler, about the specified list of entries, to which the program's list is equal for pairwise distinct sources and distinct paths in a group.
- KnowledgeBaseSync.SyncStatus: equal to the specified list only for pairwise distinct sources and distinct paths in a group; otherwise the recorded slots are wrong, and only the absence of crashes and the comparison are stated.
- KnowledgeBaseSync.BuildList: for other specifications only that all recorded slots exist.
- KnowledgeBaseController.Reconciler.Reconcile: one turn of the specified machine for such specifications only, for the same reason.
- The migration from the deprecated path lists, the deletion of a knowledge base and the conversion, splitting and embedding inside `handleFile`.
- VersionedDatasets.VersionedDataset.CopiedFileGroup2Status: the statement asks that datasources share one namespace, that none is named like an inherited version, that no source names a file twice and that a listing holds distinct keys under the prefix asked for. Otherwise only what `GenerateDatasourceFileStatus` says of namespaces is stated. Names are taken to have no blanks, so a source is its namespace and name.
- VersionSync.GenerateDatasourceFileStatus: for other specifications only that all items carry one namespace.
- VersionedDatasets.VersionedDataset.UpdateFileStatus: nothing is stated for an unsorted status, on which a binary search has no meaning.
- The reconciler of dataset versions around the synchronisation, buckets and clients of the store.
- The pool of five workers: any number of jobs may be under way.
- In runs of an evaluation a job is assumed to change no more after its terminal condition, to be gone only after the controller deleted it, and not to use the controller's own texts in its conditions; a reconcile reads and creates in one step and patches in a later one.
- The state of the volume claim is whatever the cluster answers at the time.
- The lock of the cache, and `NewLRU` with a limit that is not positive, which is an error.
- Nil receivers in `ConditionedStatus.Equal`.
- Bucket listing, error messages and SQL texts; a failing insertion is taken to have added the documents before some point; a query returns the stored rows with the given contents in any order, and a row that cannot be read counts as a failing query.
- PgVector.PGVectorStore.RemoveExist: if the first window finds nothing the whole input is returned, even if later documents are stored; the statement says so and claims no completeness.
- Rbac.ClusterRoleBinding.RemoveRagRBAC: stated for an ascending list only.
- Chat streaming, authentication, workers, Streamlit deployments, GraphQL handlers and generated code: nothing about them would be stated over unboundedly many runs.
