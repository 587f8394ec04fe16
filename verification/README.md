# The workflow engine of the IDP portal, modelled and proved

The portal's backend lets administrators draw workflows and runs them. A workflow is a list of steps; each step
names the steps that follow it on success and on error. This project models the code that decides which workflows
are accepted, how they are stored, and how they are run, together with the small stateful protocols around it, and
proves what that code keeps.

## The modules

- `Digraph`, `Workflow`, `Text`: graphs with walks, cycles and ranks; step documents and the graph they draw;
  the string operations the code relies on.
- `CycleCheck`, `GateCheck`, `Validator`: the acceptance of a step list. The depth-first search for cycles keeps its
  explicit stack and path, the search for gates inside parallel branches is breadth-first and stops at join points,
  and retry defaults are written into an array in place. `ValidationRules` and `GraphRules` say what acceptance means of
  the list as it is handed in.
- `Routing`: the choice of the next steps and the five join policies.
- `WaveRun`: the wave executor and the sequential executor as functions on the run state. Everything outside the
  runtime comes from a `World`: cancellation answers, what each attempt of a step does, the order in which parallel
  steps finish, and when a fan-out times out. A theorem about every world is a theorem about every run.
- `WaveOutcomes`, `WaveFanOut`, `WaveTimeout`, `WaveFirst`: what one iteration does, said of what the attempted steps
  come to, and where a run starts.
- `WaveTheorems`, `WaveTermination`, `WaveLinear`: what runs keep. `WaveGraph` and `WaveLength` are
  about how long runs are; `WaveGates`, `WaveGateDepth`, `WaveGateWorld` and `WaveEntries` about when a gate can run
  beside another step. `WaveChoice` has the worlds that lead a run where a proof needs it.
  `WaveExecutor` is the runtime object with its counters, proved to refine those functions.
- `DefinitionStore`, `StoreTables`, `StoreRoundTrip`, `GraphParity`, `StoreParity`, `StoreGateVerdict`,
  `StoreRouting`: the normalised tables, what a write and a read preserve, and exactly what they change.
- `ExecutionStatus`: status changes interleaved one database statement at a time; `ExecutionRaces` says which systems
  can lose a final status.
- `DbRetry`: retrying a request whose connection was lost. Its answers are characterised by a relation between the
  attempts made and the answer, which the loop satisfies; `DbAnswers` says what it recognises and answers.
- `CancellationCache`, `FeatureFlags`: shared caches under interleaved workers, with evictions, expiry and failures;
  `FeatureFlagAge` shows that the bound on the age of a flag is reached, `FeatureFlagInvalidation` what an
  invalidation is worth, `FeatureFlagLock` what the load lock is.
- `ActionImport`, `ActionImporter`, `ImportReports`, `ImportOutcomes`, `ExportAdditive`: configuration documents
  imported into and exported from the catalogue; `CatalogImport` sees an import as an operation of it.
- `Catalog`: the life cycle of actions and the cascade to the workflows that reference them; `CatalogRaces` has
  requests side by side.
- `LogBuffer`: the bounded buffer in front of Splunk; `LogThreads` has its two threads interleaved.

Methods carry the imperative form of the code; the functions they are proved against are the ones the theorems are
about. `dafny verify dfyconfig.toml` checks everything.

## Where the code does less than it says

- The transition cap does not end the wave loop: a capped step is FAILED, and FAILED is still routed along error
  lists. The validator's cycle check is what ends it (`WaveTermination`).
- The comment at container_workflow_runtime.py:606-609 says a validated workflow never runs a gate in a fan-out. It
  can, when the gate is a join point (`WaveGates`), and when it is one of several entry steps or lies below one
  (`WaveEntries`). Without join points, with success lists and proper ids throughout, it runs beside another step
  exactly when it lies as far below one of two different steps, both entry steps or both targets of one list, as some
  step lies below the other.
- A fan-out that times out does not hear the steps that finish between the timeout and the look at who is pending: if
  that is all of them the run ends COMPLETED, even if they failed (`WaveTimeout`).
- An accepted workflow can go round in a circle until the cap ends it: the fallback by order is an edge that the
  cycle check does not see (`WaveLength`).
- Statuses such as REJECTED make the two executors differ on a linear workflow: the sequential one goes on, the wave
  one follows the empty error list and completes (`WaveLinear`).
- Treating an empty success list and an absent one as the same, as the tables do, changes routing: an absent list
  falls back to the next step by order (`StoreRouting`). Exit points are lost with the empty lists, so validation
  rejects what the tables give back (`StoreParity`).
- Actions are created with steps that no validation has seen. The tables drop targets that name no step, and with
  them a rejection by the gate check can go (`StoreGateVerdict`).
- The tables store a reference given as a text as a number (`DefinitionStore`).
- The saves of FAILED for runs that find nothing to start are not guarded, and can overwrite CANCELLED
  or COMPLETED (`ExecutionRaces`); after such a save the cancellation cache still says cancelled (`CancellationCache`).
- The version of a normalised definition is never more than 2.
- An InterfaceError is taken to mean that nothing was committed; if it does not, a write can be repeated (`DbRetry`).
- `invalidate_cache(None)`, and an empty name, leave the entries of single flags in place (`FeatureFlags`).
- A referenced id given as a text passes the publication check but is not seen by the deactivation cascade, and the
  cascade does not reach workflows that reference workflows (`Catalog`).
- The `enable` transition cannot revive an action that was deactivated: the table's check refuses it; reactivation
  clears the soft-delete date first (`Catalog`).
- A configuration import sets status and steps without the publication check (`Catalog`).
- A reactivation beside the deactivation of an action it references leaves a published workflow with a disabled
  action; a change of steps can turn a row that was published meanwhile back into a draft (`CatalogRaces`).
- An invalidation deletes a flag's own entries before the entries of all flags: a reader in between writes the old
  value back for a whole lifetime (`FeatureFlagInvalidation`).
- The load lock is checked and deleted in two steps: a holder that is slower than the lock lasts deletes the lock of
  the worker after it (`FeatureFlagLock`).
- Closing the log handler does not flush it (`LogBuffer`). With its timer running, either batches can be sent out of
  order or a drop can go uncounted, depending on whether a batch fits the queue (`LogThreads`).

## Model

| member | source | states |
|---|---|---|
| `CycleCheck.DetectWorkflowCycles` | idp-portal/django_backend/catalog/validation.py:227-298 | the search ends on every graph; it raises exactly when the success-and-error graph has a cycle, the reported path is a cycle of that graph, and acceptance gives a rank that falls along every edge |
| `CycleCheck.SearchFrom` | idp-portal/django_backend/catalog/validation.py:270-298 | one depth-first search with its explicit stack: every edge out of a finished step leads to a step finished earlier, or a genuine cycle is returned |
| `CycleCheck.BuildGraph` | idp-portal/django_backend/catalog/validation.py:243-259 | the adjacency dictionary is the success-and-error graph, a later step replacing an earlier one with the same id |
| `Digraph.RankExcludesCycles` | idp-portal/django_backend/catalog/validation.py:227-298 | a rank that falls along edges leaves no cycle |
| `GateCheck.DetectGatesInParallelBranches` | idp-portal/django_backend/catalog/validation.py:301-372 | raises exactly when a gate is reachable from a target of a list of length two or more along a path on which no step, ends included, is a join point |
| `GateCheck.BreadthFirst` | idp-portal/django_backend/catalog/validation.py:345-372 | the breadth-first search ends; it visits only steps reached inside the branch, and what it has visited when it finds nothing is closed under non-join successors and holds no gate |
| `GateCheck.NoGateReached` | idp-portal/django_backend/catalog/validation.py:345-372 | a set without gates that holds the non-join targets and is closed under non-join successors shows that no gate is reached |
| `GateCheck.CountInDegrees` | idp-portal/django_backend/catalog/validation.py:317-332 | the counters are the numbers of mentions as a branch target, over both kinds of list |
| `Validator.ValidateWorkflowSteps` | idp-portal/django_backend/catalog/validation.py:19-224 | accepts exactly the lists that satisfy the declared conditions once retry defaults are written in; an accepted list is left with all defaults written, a rejected one with defaults in a prefix; the error is about the first check that fails, in the order of the passes, and says what is wrong: the index, the repeated ids, the unknown target, a genuine cycle, a gate a fan-out of the named step leads to |
| `Validator.CollectStepIds` | idp-portal/django_backend/catalog/validation.py:80-99 | passes exactly when required ids are present, none is blank and none is repeated; the set collected is the set of ids, and the repeated ids reported are those two steps have |
| `Validator.CheckEachStep` | idp-portal/django_backend/catalog/validation.py:101-207 | the in-place pass accepts exactly when every step with its defaults satisfies the per-step rules, and reports an exit point exactly when one exists |
| `Validator.PassesDecideLocallyOk` | idp-portal/django_backend/catalog/validation.py:50-207 | the separate passes, run before and after defaults are written, together decide the local conditions on the final list |
| `ValidationRules.AcceptedIff` | idp-portal/django_backend/catalog/validation.py:19-224 | what the conditions are, said of the list as handed in: ids there, not blank and different; platform steps refer to an action, not by number to their own; targets are steps; one of five join policies; a registered gate type; positive retry numbers; and where branches or retries are used an exit, no way round in a circle, no gate in parallel |
| `ValidationRules.AcceptedReferences` | idp-portal/django_backend/catalog/validation.py:53-63 | so no accepted list has a platform step without a reference, or one that refers by number to the action it belongs to |
| `ValidationRules.DefaultsWritten` | idp-portal/django_backend/catalog/validation.py:113-123 | what the defaults change: with retries on, missing or null numbers become 3, 60 and 2.0, and nothing else |
| `GraphRules.GoesRoundIff` | idp-portal/django_backend/catalog/validation.py:227-298 | the graph has a cycle exactly when one can go from step to step along branch lists and come back |
| `GraphRules.GateInParallelIff` | idp-portal/django_backend/catalog/validation.py:301-372 | the gate rule, said of branch lists: a way from a target of a list of two or more, past no step that is named twice, to a gate |
| `GraphRules.MentionedIff` | idp-portal/django_backend/catalog/validation.py:317-332 | the in-degree is two or more exactly when two places of the branch lists name the step |
| `Routing.ApplyJoinPolicy` | idp-portal/django_backend/executions/domain/workflow_graph.py:56-121 | the dictionary-based code: the next steps are, once each, those that some result goes on to and whose policy lets them run after what the steps of the wave that name them have come to |
| `Routing.PoliciesDecide` | idp-portal/django_backend/executions/domain/workflow_graph.py:84-121 | what the policies decide, of the results themselves: with two steps naming it, all_failed wants every one failed (a missing result counts as failed), one_failed some one, one_success some one completed, all_done nothing, any other or none every one completed; with at most one step naming it the target always runs |
| `WaveOutcomes.NextTells` | idp-portal/django_backend/executions/domain/workflow_graph.py:15-53 | a completed step leads to its success list, or when it has none to the first step with an id that comes later by order; any other status leads to the error list |
| `Routing.JoinPolicyMember` | idp-portal/django_backend/executions/domain/workflow_graph.py:56-121 | a step enters the next wave exactly when some finished branch names it and its join policy admits it |
| `Routing.FirstByOrder` | idp-portal/django_backend/executions/domain/workflow_graph.py:39-53 | the linear fallback picks a later step of least order |
| `WaveExecutor.ContainerWorkflowRuntime.ExecuteStep` | idp-portal/django_backend/executions/container_workflow_runtime.py:359-470 | one dispatched step: both counters, the cap, the row written and the status returned, or an exception before or after the row is written; what that is, WaveOutcomes.OneStepTells and NextInOrderTells say |
| `WaveOutcomes.OneStepTells` | idp-portal/django_backend/executions/container_workflow_runtime.py:1271-1361 | what an iteration makes of a wave of one step, for everything the attempt can come to: a gate that waits and a RUNNING step pause the run with their row written; a skipped step goes on as a completed one; an exception leaves without the row or, after it, with it; CANCELLED ends the run; FAILED, and the cap, end it unless the error list names a step |
| `WaveOutcomes.NextInOrderTells` | idp-portal/django_backend/executions/container_workflow_runtime.py:1442-1480 | the same for the next step of the sequential executor, which goes on after any status but FAILED, CANCELLED and RUNNING |
| `WaveOutcomes.PausedIff` | idp-portal/django_backend/executions/container_workflow_runtime.py:1305-1312 | a run is paused exactly when the last step it dispatched was alone in its wave and its gate waited or it returned RUNNING |
| `WaveOutcomes.SequentialPausedIff` | idp-portal/django_backend/executions/container_workflow_runtime.py:1442-1480 | a sequential run is paused exactly when a step it came to waited |
| `WaveFanOut.FanOutTells` | idp-portal/django_backend/executions/container_workflow_runtime.py:488-629 | what an iteration makes of a wave of several: FAILED at an unknown step or at the cap; otherwise one row, in finishing order, for every step that came so far, and then, from what the runtime holds of each step, CANCELLED, the admitted targets once each, FAILED, or COMPLETED |
| `WaveTimeout.ResultsHeard` | idp-portal/django_backend/executions/container_workflow_runtime.py:557-606 | what the runtime holds of each step, repeated in the wave or not: FAILED if it was pending, else what its own attempt came to if it was collected, else nothing; a waiting gate and a step without handler count as failed and lead to their error list, an exception leads nowhere |
| `WaveExecutor.ContainerWorkflowRuntime.Preallocate` | idp-portal/django_backend/executions/container_workflow_runtime.py:511-517 | a fan-out reserves one step order for each of its steps before any starts |
| `WaveExecutor.ContainerWorkflowRuntime.RunParallel` | idp-portal/django_backend/executions/container_workflow_runtime.py:557-629 | rows and results of the parallel steps in whatever order they finish, and however a timeout falls: collected steps have their results, pending ones are failed, and those in between are in no result |
| `WaveTimeout.ResultOf` | idp-portal/django_backend/executions/container_workflow_runtime.py:566-606 | of the step that finishes j-th the runtime holds its own branch if it was collected before the timeout, nothing if it finished before the look at who is pending, and FAILED with no next step otherwise |
| `WaveTimeout.NobodyHeard` | idp-portal/django_backend/executions/container_workflow_runtime.py:591-606 | a fan-out whose steps all finish in between ends the run COMPLETED, whatever the steps returned |
| `WaveTimeout.NobodyFinished` | idp-portal/django_backend/executions/container_workflow_runtime.py:591-606 | one of which no step has finished when it times out ends it FAILED |
| `WaveFirst.FirstWaveTells` | idp-portal/django_backend/executions/container_workflow_runtime.py:1059-1083 | the first wave: of a resumed run the given ids that name a step, in order; else the steps no branch list names, in list order, or only the least of them by order and id when nothing is named; else the first step by order, and the list-order executor when that has no id |
| `WaveExecutor.ContainerWorkflowRuntime.ExecuteFanOut` | idp-portal/django_backend/executions/container_workflow_runtime.py:488-629 | a fan-out wave refines the fan-out function: unknown step, cap, cancellation, join policy, failure |
| `WaveExecutor.ContainerWorkflowRuntime.ExecuteSingle` | idp-portal/django_backend/executions/container_workflow_runtime.py:1290-1340 | a single-step wave refines the single-step function: pause, cancellation, failure with and without an error list |
| `WaveExecutor.ContainerWorkflowRuntime.ExecuteWaves` | idp-portal/django_backend/executions/container_workflow_runtime.py:1247-1363 | the loop ends, and its outcome is that of the run function |
| `WaveExecutor.ContainerWorkflowRuntime.ExecuteWorkflowSteps` | idp-portal/django_backend/executions/container_workflow_runtime.py:1247-1363 | an empty workflow completes; otherwise waves from the initial wave, or list order when no step has an id |
| `WaveExecutor.ContainerWorkflowRuntime.ExecuteSequential` | idp-portal/django_backend/executions/container_workflow_runtime.py:1442-1480 | the fallback loop ends with the outcome of the sequential run function |
| `WaveTheorems.DispatchCap` | idp-portal/django_backend/executions/container_workflow_runtime.py:385-407 | on any graph, cyclic included, with any routing and any world, at most MAX_STEP_TRANSITIONS steps are dispatched, fan-out batches included |
| `WaveTheorems.SequentialDispatchCap` | idp-portal/django_backend/executions/container_workflow_runtime.py:385-407 | the same bound for the sequential executor |
| `WaveTheorems.StepOrders` | idp-portal/django_backend/executions/container_workflow_runtime.py:511-517 | an iteration only adds rows, and numbers them above every earlier row |
| `WaveTheorems.RowOrdersDistinct` | idp-portal/django_backend/executions/container_workflow_runtime.py:557-563 | with distinct ids in each wave, all rows of a run carry distinct step orders, however fan-out threads interleave |
| `WaveTheorems.SequentialRowOrdersDistinct` | idp-portal/django_backend/executions/container_workflow_runtime.py:1442-1480 | so do all rows of a sequential run, whose steps may share ids |
| `WaveTheorems.RepeatedStepSharesOrder` | idp-portal/django_backend/executions/container_workflow_runtime.py:511-517 | the condition is needed: a wave that repeats an id writes two rows under one order |
| `WaveTheorems.OutcomesFinal` | idp-portal/django_backend/executions/container_workflow_runtime.py:1247-1480 | a run of either executor that is done ends COMPLETED, FAILED or CANCELLED |
| `WaveTermination.HaltsIffNoErrorCycle` | idp-portal/django_backend/executions/container_workflow_runtime.py:1324-1340 | the wave loop ends in every world and from every first wave exactly when error lists that name a single step form no cycle; the transition cap alone does not end it |
| `WaveTermination.HaltsWithinBound` | idp-portal/django_backend/executions/container_workflow_runtime.py:1247-1363 | then it ends within the cap plus the number of steps plus two iterations |
| `WaveTermination.LoopsForEver` | idp-portal/django_backend/executions/container_workflow_runtime.py:400-407 | on such a cycle the run in which every step fails goes round for ever, past any cap |
| `WaveTermination.AcceptedHalts` | idp-portal/django_backend/catalog/validation.py:227-298 | every list the validator accepts ends, within that bound: its cycle check covers the error lists |
| `WaveGraph.AcceptedRunLength` | idp-portal/django_backend/executions/container_workflow_runtime.py:1247-1363 | an accepted workflow ends within as many waves as it has steps, for all outcomes and join policies, when its success lists are explicit or what the runtime can do leads from the first wave into no cycle |
| `WaveGraph.RunLength` | idp-portal/django_backend/executions/container_workflow_runtime.py:1247-1363 | so does any workflow whose targets name steps when lists and fallbacks by order lead from the first wave into no cycle |
| `WaveLength.RunLengthFromIff` | idp-portal/django_backend/executions/domain/workflow_graph.py:15-53 | where no step is named twice, fan-outs included, or no list names two steps, the condition is exact: every run from a first wave is that short if and only if lists and fallbacks lead from it into no cycle |
| `WaveLength.RunLengthIff` | idp-portal/django_backend/executions/domain/workflow_graph.py:15-53 | so runs from every single step are that short if and only if there is no cycle at all |
| `WaveLength.AcceptedCanCircle` | idp-portal/django_backend/executions/domain/workflow_graph.py:39-53 | acceptance alone is not enough: an accepted workflow of two steps, started where the runtime starts it, goes round through its fallback until the cap fails it |
| `WaveGraph.WaveTrails` | idp-portal/django_backend/executions/container_workflow_runtime.py:1271-1361 | each step of the k-th wave ends a walk of k moves from the first wave, by a list or by the fallback |
| `WaveGates.GatesRunAlone` | idp-portal/django_backend/executions/container_workflow_runtime.py:875-891 | when no gate lies below a target of a list with two targets or more, nor below a step of a first wave of two or more, join points or not, no run from that wave has a gate in a wave of two or more steps |
| `WaveGates.AcceptedGatesRunAlone` | idp-portal/django_backend/catalog/validation.py:301-372 | for the lists of a workflow without join points that is what acceptance gives; what lies below a first wave of several steps no check looks at |
| `WaveGateDepth.NoGateBesideAlone` | idp-portal/django_backend/executions/container_workflow_runtime.py:606-609 | it is enough that no gate lies as far below one of two steps that start side by side (in the first wave or in one list) as some step lies below the other, join points or not |
| `WaveEntries.GatesAloneIff` | idp-portal/django_backend/executions/container_workflow_runtime.py:1059-1083 | in workflows without join points that condition is exact for the runtime's own first wave: gates run alone in every world if and only if no gate lies as far below one of two entry steps, or of two targets of one list, as some step lies below the other |
| `WaveGateWorld.GatesAloneFromIff` | idp-portal/django_backend/executions/container_workflow_runtime.py:606-609 | the same for any first wave none of whose steps lies below another |
| `WaveGateWorld.GatesAloneFromStepIff` | idp-portal/django_backend/executions/container_workflow_runtime.py:606-609 | in particular for runs that start with a single step |
| `WaveEntries.EntryIsParentless` | idp-portal/django_backend/executions/utils/workflow_parsing.py:90-119 | with ids of their own and without surrounding blanks, the steps without an incoming edge are exactly the steps no list names |
| `WaveEntries.FirstWaveHoldsRoots` | idp-portal/django_backend/executions/container_workflow_runtime.py:1059-1083 | as soon as a list names a step the first wave holds every step that no list names |
| `WaveEntries.GateAmongEntries` | idp-portal/django_backend/executions/container_workflow_runtime.py:1075-1083 | a second accepted workflow against the comment: no list has two targets, but the first wave dispatches a gate beside another entry step |
| `WaveGateWorld.SiblingsMeet` | idp-portal/django_backend/executions/container_workflow_runtime.py:1271-1361 | two steps equally far below two that start side by side do meet: some world and number of iterations put both into one wave, from the first wave on |
| `WaveGateWorld.DispatchedOnce` | idp-portal/django_backend/executions/container_workflow_runtime.py:385-407 | in such a workflow no run from a first wave none of whose steps lies below another dispatches a step twice, and each wave lies at its own depth |
| `WaveGates.GateCanRunInFanOut` | idp-portal/django_backend/executions/container_workflow_runtime.py:606-609 | the general claim of the comment is false: an accepted workflow whose gate is a join point runs that gate in a wave of two |
| `WaveLinear.LinearRunsAgree` | idp-portal/django_backend/executions/container_workflow_runtime.py:1442-1480 | on a linear workflow both executors make the same attempts, write the same rows and end alike if and only if no step before the last, reached without a cancellation after steps that completed or were skipped and within the cap, returns a status other than COMPLETED, FAILED, CANCELLED or RUNNING |
| `WaveLinear.LinearStartsFirst` | idp-portal/django_backend/executions/container_workflow_runtime.py:1059-1083 | the wave executor starts a linear workflow at its first step |
| `WaveLinear.LinearEntryIds` | idp-portal/django_backend/executions/utils/workflow_parsing.py:75-120 | the only entry step of a linear workflow is its first |
| `DefinitionStore.DefinitionTables.SyncFromJson` | idp-portal/django_backend/catalog/workflow_definition_repository.py:123-204 | succeeds exactly on the empty list and on lists the tables can hold: ids unique, types known, referenced actions existing, no repeated edge; otherwise rolls back; on success the tables hold the old rows of other definitions and the rows and edges of this one |
| `DefinitionStore.DefinitionTables.ReplaceRows` | idp-portal/django_backend/catalog/workflow_definition_repository.py:146-204 | fails exactly when ids repeat, a type is unknown, a referenced action does not exist or a list repeats a known target |
| `DefinitionStore.DefinitionTables.UpsertDefinition` | idp-portal/django_backend/catalog/workflow_definition_repository.py:137-144 | the version is 1 on creation and 2 after every update |
| `DefinitionStore.DefinitionTables.GetStepsFromNormalized` | idp-portal/django_backend/catalog/workflow_definition_repository.py:32-108 | reads each row of the definition once, by step order, each with exactly its own edges |
| `DefinitionStore.EdgesSayTargets` | idp-portal/django_backend/catalog/workflow_definition_repository.py:181-204 | an edge row joins two steps exactly when the list of that kind names the target |
| `DefinitionStore.EdgeListRepeat` | idp-portal/django_backend/catalog/workflow_definition_repository.py:181-204 | the bulk insert violates the unique constraint exactly when some list repeats a known target |
| `StoreRoundTrip.WriteThenRead` | idp-portal/django_backend/catalog/workflow_definition_repository.py:32-204 | a list written and read back has the same ids, in step order, and field by field: order, mappings and retry fields as they were, the reference as its number, a missing type as platform, empty texts and the gate type gone, join policy, condition, integration and operation otherwise as they were; branch lists without repetition and without dangling targets, never empty |
| `StoreRoundTrip.RowKeepsScalars` | idp-portal/django_backend/catalog/workflow_definition_repository.py:62-108 | the fields of one step through its row |
| `StoreTables.WrittenTells` | idp-portal/django_backend/catalog/workflow_definition_repository.py:146-204 | what a write leaves: one row for each step with an id, saying what the step says; an edge between two of them exactly when the list of its kind names the other; rows and edges of other definitions as they were |
| `StoreTables.TakesIff` | idp-portal/django_backend/catalog/workflow_definition_repository.py:146-204 | what the tables take: different ids, six step types, references to existing actions, no list naming a step twice |
| `StoreTables.DeletedTells` | idp-portal/django_backend/catalog/workflow_definition_repository.py:129-160 | deleting a definition's rows takes its edges with them, and nothing else |
| `StoreParity.SameCycleVerdict` | idp-portal/django_backend/catalog/validation.py:227-298 | the cycle check gives both forms the same verdict, dangling targets or not |
| `StoreGateVerdict.GateVerdictIsCut` | idp-portal/django_backend/catalog/validation.py:301-372 | for every list the tables can hold, the gate check says of what is read back what it says of the list cut to the targets that name steps |
| `StoreGateVerdict.GateVerdictBackIff` | idp-portal/django_backend/catalog/validation.py:301-372 | it rejects what is read back if and only if, among the steps with an id, some list with two or more targets that name a step leads to a gate inside the branch |
| `StoreGateVerdict.GateVerdictsDifferIff` | idp-portal/django_backend/catalog/workflow_definition_repository.py:181-204 | exactly when the two verdicts differ: a rejected list passes when every list of a step with an id that leads to a gate has one target that names a step; a passing one is rejected when one of these has two, which takes a step without an id |
| `StoreParity.DanglingChangesGateVerdict` | idp-portal/django_backend/catalog/services.py:238-256 | such a list, which the tables can hold, is rejected by the gate check and passes it once read back; creating an action writes lists unchecked |
| `StoreParity.BackAcceptedIff` | idp-portal/django_backend/catalog/validation.py:209-224 | what is read back has lost its exit points: validation accepts it if and only if it is empty or no step has a branch list or a retry field and the local rules hold |
| `StoreParity.BackWritable` | idp-portal/django_backend/catalog/workflow_definition_repository.py:123-204 | what was read back the tables can hold again |
| `StoreParity.WriteAndReadTwice` | idp-portal/django_backend/catalog/workflow_definition_repository.py:32-204 | write, read, write, read: whenever the first write succeeds the second does, and the second reading has the steps of the first but for the order of their lists |
| `StoreParity.SecondRoundTripChangesNothing` | idp-portal/django_backend/catalog/workflow_definition_repository.py:32-204 | a second write and read changes no step but for the order of its lists |
| `GraphParity.SameGateVerdict` | idp-portal/django_backend/catalog/validation.py:301-372 | lists with the same ids, gates and successor sets get the same gate verdict, whatever their order |
| `GraphParity.SameInDegree` | idp-portal/django_backend/catalog/validation.py:317-332 | and have the same in-degrees |
| `StoreRouting.RoutingSurvivesIff` | idp-portal/django_backend/executions/domain/workflow_graph.py:15-53 | whatever order ties come back in, the runtime follows the same steps from a step in both forms if and only if its targets name steps and it has a non-empty success list, or no step comes later, or it never had a success list and exactly one step comes next by order |
| `StoreRouting.RoutedAlikeIff` | idp-portal/django_backend/executions/domain/workflow_graph.py:15-53 | the same for one given form read back |
| `StoreRouting.RoundTripChangesOutcome` | idp-portal/django_backend/catalog/workflow_definition_repository.py:97-104 | an accepted workflow that completes in two steps loops up to the cap and fails once it has been through the tables |
| `ExecutionStatus.ExecutionTable.Start` | idp-portal/django_backend/executions/container_workflow_runtime.py:917-932 | the compare-and-set start: won exactly when the row is SUBMITTED, which becomes RUNNING |
| `ExecutionStatus.ExecutionTable.CancelChildren` | idp-portal/django_backend/executions/container_workflow_runtime.py:293-314 | exactly the submitted and running children become CANCELLED |
| `ExecutionStatus.ExecutionTable.Finalize` | idp-portal/django_backend/executions/container_workflow_runtime.py:1391-1440 | a row that is COMPLETED, FAILED or CANCELLED stays and is returned; any other becomes the target, with one audit entry that names both |
| `ExecutionStatus.EveryInterleaving` | idp-portal/django_backend/executions/container_workflow_runtime.py:917-932 | under every interleaving an execution goes from SUBMITTED to RUNNING at most once, and the audit trail is the list of won finalisations |
| `ExecutionStatus.FinalStatusesStay` | idp-portal/django_backend/executions/container_workflow_runtime.py:1391-1440 | when every run finds something to start, no final status is ever overwritten, no execution is finalised twice, and every finalisation returns what stays stored |
| `ExecutionRaces.FinalStaysIff` | idp-portal/django_backend/executions/container_workflow_runtime.py:1391-1440 | every system of runs, cancellations and finalisations keeps each final status under every interleaving if and only if nobody can finish, otherwise than by failing it, an execution on which an idle run is about to start |
| `ExecutionRaces.EndangeredOverwrites` | idp-portal/django_backend/executions/container_workflow_runtime.py:934-962 | otherwise a schedule ends with the unguarded save of FAILED over COMPLETED or CANCELLED |
| `ExecutionRaces.FinalStaysIffWork` | idp-portal/django_backend/executions/container_workflow_runtime.py:1050-1054 | so one run beside one cancellation keeps the final status exactly when the run finds something to start |
| `DbRetry.Call` | idp-portal/django_backend/core/db_resilience.py:161-168 | a request is answered as the declared relation of attempts and answer says; GET, HEAD and OPTIONS are safe to repeat |
| `DbRetry.HandleConnectionError` | idp-portal/django_backend/core/db_resilience.py:170-292 | the retry loop ends and satisfies that relation: what each attempt was, why the loop went on, and why it stopped |
| `DbRetry.ExtractOraCode` | idp-portal/django_backend/core/db_resilience.py:76-83 | a code is found exactly when one is mentioned, and it is a mentioned one; what a mention is, DbAnswers.MentionsIff says |
| `DbAnswers.MentionsIff` | idp-portal/django_backend/core/db_resilience.py:28-61 | each of the eleven codes is found exactly when its five-digit text, ORA-03113 and so on, stands somewhere in the message |
| `DbAnswers.ConnectionErrorIff` | idp-portal/django_backend/core/db_resilience.py:53-73 | a lost connection: an InterfaceError, one of the eleven texts, or one of five phrases in any case of letters |
| `DbAnswers.FirstErrorAnswered` | idp-portal/django_backend/core/db_resilience.py:86-129 | a write whose first call raises an error that says ORA-03113 or ORA-03114, and no other code, outside an atomic block, is never called again and answered as uncertain; nothing else is answered so at once |
| `DbAnswers.AnswerTells` | idp-portal/django_backend/core/db_resilience.py:202-292 | the answer follows from the last call: a reply, an error that is no lost connection raised again, an unsafe loss answered as uncertain; any other loss means that attempts or time have run out |
| `DbAnswers.AttemptTimes` | idp-portal/django_backend/core/db_resilience.py:203-235 | when each attempt checks the window, reconnects and is done, after the one before it |
| `DbAnswers.Sleeps` | idp-portal/django_backend/core/db_resilience.py:132-141 | the first attempt does not sleep, the second sleeps the base, each other twice the one before, none more than five seconds |
| `DbAnswers.BadDelayOnlyThen` | idp-portal/django_backend/core/db_resilience.py:217-230 | only a negative base makes the loop sleep for a negative time, and not before the second attempt |
| `DbAnswers.CallsInTurn` | idp-portal/django_backend/core/db_resilience.py:248-250 | the calls of a request are the view's invocations one after another, none skipped |
| `DbRetry.OrderIrrelevantIff` | idp-portal/django_backend/core/db_resilience.py:86-113 | the mid-commit verdict depends on the enumeration order of the code set exactly when a message mentions a mid-commit code beside another connection code |
| `DbRetry.CallsBounded` | idp-portal/django_backend/core/db_resilience.py:202-277 | the handler is invoked at most one time more than the number of attempts |
| `DbRetry.OnlyLastEnds` | idp-portal/django_backend/core/db_resilience.py:246-277 | every call but the last lost its connection in a way that may be retried |
| `DbRetry.CommitsAtMostOnceIff` | idp-portal/django_backend/core/db_resilience.py:116-129 | whatever a write request does, it commits at most once over all retries exactly when every call that commits and loses its connection is classified as mid-commit |
| `DbRetry.InterfaceErrorRepeatsCommit` | idp-portal/django_backend/core/db_resilience.py:93-95 | an InterfaceError after a commit is never so classified: the commit can be repeated |
| `DbRetry.DelaysNeverDecrease` | idp-portal/django_backend/core/db_resilience.py:132-141 | delays never decrease and never exceed five seconds |
| `DbRetry.TotalSleepBounded` | idp-portal/django_backend/core/db_resilience.py:202-231 | the total sleep over n attempts is at most base times 2^(n-1) less base, and at most five seconds for each attempt but the first |
| `DbRetry.ReconnectDeadline` | idp-portal/django_backend/core/db_resilience.py:203-235 | no reconnect starts later than the time window, five seconds and the loop's own time after the check |
| `CancellationCache.Worker.IsCancelled` | idp-portal/django_backend/executions/cancellation_cache.py:20-60 | any answer is the database's; exactly what is put in the cache, a True for this execution for a day when it is cancelled, not cached and nothing fails; and exactly when there is no answer |
| `CancellationCache.Worker.MarkCancelled` | idp-portal/django_backend/executions/cancellation_cache.py:63-87 | the cache says True when the write succeeds and is unchanged when it does not |
| `CancellationCache.AlwaysRightIff` | idp-portal/django_backend/executions/cancellation_cache.py:20-97 | in every reachable state of interleaved workers, through evictions, expiries, failed writes and exceptions, every answer equals the database's, exactly when nothing takes an execution out of CANCELLED or deletes it |
| `CancellationCache.FalseNeverCached` | idp-portal/django_backend/executions/cancellation_cache.py:43-50 | no run puts False in the cache |
| `CancellationCache.NoWorkerMissesCancel` | idp-portal/django_backend/executions/cancellation_cache.py:63-87 | once the database says cancelled, every later answer does too, even if the mark was lost |
| `CancellationCache.MarkServesForADay` | idp-portal/django_backend/executions/cancellation_cache.py:63-87 | for a day after a mark that succeeds, unless it is evicted, whoever asks is told at once and from the cache that the execution is cancelled, whatever happens in between |
| `CancellationCache.CancelsThenMarks` | idp-portal/django_backend/executions/views/execution_views.py:326-366 | a cancellation changes a SUBMITTED or RUNNING row, and only then marks the cache |
| `CancellationCache.AfterKeepsInv` | idp-portal/django_backend/executions/cancellation_cache.py:20-97 | an entry in the cache implies a cancelled row, at every step |
| `FeatureFlags.FlagService.GetAllFlags` | idp-portal/django_backend/core/feature_flags.py:130-217 | a live entry is served; else, with the lock free, one load fills the entry and releases the lock; else the wait ends with an entry seen or, after three seconds, with a load that is not stored |
| `FeatureFlags.FlagService.GetFlagConfig` | idp-portal/django_backend/core/feature_flags.py:220-234 | which of the two entries or the loader a configuration comes from; absent flags are not cached |
| `FeatureFlags.FlagService.InvalidateCache` | idp-portal/django_backend/core/feature_flags.py:330-351 | what is deleted, key or no key, for both sources |
| `FeatureFlagInvalidation.DeletionsForget` | idp-portal/django_backend/core/feature_flags.py:343-350 | the four deletions of the interleaved model, one after another, are that invalidation |
| `FeatureFlagLock.AlwaysExclusiveIff` | idp-portal/django_backend/core/feature_flags.py:159-187 | the load lock lets one worker at a time load a source, in every run, if and only if it lasts longer than the four steps a worker makes while it holds it |
| `FeatureFlagLock.DeletesForeignLock` | idp-portal/django_backend/core/feature_flags.py:184-187 | otherwise some run has a worker delete the lock that another has taken since it looked |
| `FeatureFlags.ServedIsRecent` | idp-portal/django_backend/core/feature_flags.py:220-234 | under every interleaving a served configuration is one the loader returned for that source at most twice the lifetime plus the workers' delays ago |
| `FeatureFlagAge.BoundReached` | idp-portal/django_backend/core/feature_flags.py:220-234 | for every timing some run is served a configuration two lifetimes and three delays, less two units, after its load: the second cache level doubles the age |
| `FeatureFlagInvalidation.OnlyInHandIff` | idp-portal/django_backend/core/feature_flags.py:220-234 | from any state on, nobody but those who have it in hand is served what is older than a given load, under every interleaving, if and only if no live entry and no worker about to write one holds it |
| `FeatureFlagInvalidation.OpenInvalidationRenewsIff` | idp-portal/django_backend/core/feature_flags.py:330-351 | an invalidation whose four deletions are interleaved with everybody else is sure to leave nothing older than itself if and only if at its start no worker is about to write an old entry and no live entry of all flags has the flag |
| `FeatureFlagInvalidation.UnreadInvalidationRenewsIff` | idp-portal/django_backend/core/feature_flags.py:330-351 | when no reader of the flag is under way or starts before it has ended, it is sure to if and only if no worker is about to store an old entry |
| `FeatureFlagInvalidation.ReaderSlipsIn` | idp-portal/django_backend/core/feature_flags.py:343-350 | the stale run: a reader that starts between the deletions takes up the entry of all flags and writes the deleted entry of the flag again |
| `ActionImporter.Importer.ImportActionYaml` | idp-portal/django_backend/catalog/services_export_import.py:276-434 | the import refines its specification; a rejected one leaves the database as it was |
| `ActionImporter.Importer.ReadFields` | idp-portal/django_backend/catalog/services_export_import.py:308-366 | the fields a document sets, or the first error, in the order of the checks; what these are, ImportReports.FieldsRead says |
| `ImportReports.FieldsRead` | idp-portal/django_backend/catalog/services_export_import.py:308-366 | field by field what a document sets: engine and platform stripped, draft and target required by default, the item type in lower case and action by default, empty texts null, names replaced by the rows they stand for, workflow steps with their defaults; and which of its faults is the error |
| `Text.StripTakesBlanks` | idp-portal/django_backend/catalog/services_export_import.py:83-89 | stripping takes characters from the ends only, all of them blanks |
| `Text.SpacesAre` | idp-portal/django_backend/catalog/services_export_import.py:83-89 | which characters are blanks |
| `Text.LowerLetters` | idp-portal/django_backend/catalog/services_export_import.py:83-89 | lower case turns each capital into its small letter and leaves the rest |
| `ImportReports.ImportReported` | idp-portal/django_backend/catalog/services_export_import.py:276-434 | what an import reports: the first of the faults it finds, in order, and nothing changed; or one action created, updated exactly when a field differs, or untouched, and every other action as it was |
| `CatalogImport.ImportIsOp` | idp-portal/django_backend/catalog/services_export_import.py:276-434 | an accepted import is, of the catalogue's rows, the import operation whose effect on published workflows Catalog.ImportKeepsSoundIff states |
| `ActionImporter.Importer.SyncTags` | idp-portal/django_backend/catalog/services_export_import.py:75-102 | each missing name gets one tag, existing but for case or new; full mode detaches the orphans |
| `ActionImporter.Importer.SyncMutex` | idp-portal/django_backend/catalog/services_export_import.py:109-169 | rules become the document's (full) or the union with them (additive); errors for unnamed, unknown and own targets |
| `ActionImporter.Importer.ExportActionYaml` | idp-portal/django_backend/catalog/services_export_import.py:176-268 | the document says the fields, references, tags and rules of the action, and nothing else |
| `ActionImport.ImportTwice` | idp-portal/django_backend/catalog/services_export_import.py:276-405 | the second import of a document reports (0,0,1) and changes no field, tag or rule of any action |
| `ActionImport.TagsAfterImport` | idp-portal/django_backend/catalog/services_export_import.py:75-102 | additive imports leave the union of tag names; full ones exactly the document's if and only if every other attached tag is stored without surrounding blanks |
| `ImportOutcomes.ImportedRules` | idp-portal/django_backend/catalog/services_export_import.py:109-169 | after an accepted import the rule keys are exactly the actions some specification names, with the old ones in additive mode; each rule is that of the last specification naming its action, or the old one |
| `ImportOutcomes.ImportedTags` | idp-portal/django_backend/catalog/services_export_import.py:75-102 | and the tag names are the document's with the old ones in additive mode; in full mode the document's alone if and only if every other old tag is stored without surrounding blanks |
| `ActionImport.FullImportOfExportIff` | idp-portal/django_backend/catalog/services_export_import.py:176-405 | importing an export in full mode changes nothing and says so exactly when the action is tidy: no empty strings, no surrounding blanks in names, steps the validator accepts as they are |
| `ExportAdditive.AdditiveImportOfExportIff` | idp-portal/django_backend/catalog/services_export_import.py:176-405 | in additive mode it changes nothing exactly when the fields are tidy and the exported specifications name actions, the last one for each action repeating its rule |
| `ActionImport.FieldsBackIff` | idp-portal/django_backend/core/services_cac_utils.py:141-159 | no field differs after an export and re-import exactly when the fields are tidy |
| `ActionImport.ImportKeepsWellFormed` | idp-portal/django_backend/catalog/services_export_import.py:276-434 | imports keep names unique, references valid and the table checks |
| `Catalog.CatalogService.ValidateWorkflowCanBePublished` | idp-portal/django_backend/catalog/services.py:59-128 | passes exactly when every action a step refers to, by number or by what converts to it, exists and is published; a missing one is reported first |
| `Catalog.CatalogService.CreateAction` | idp-portal/django_backend/catalog/services.py:160-272 | the answer to a creation, and that a refused one leaves no row |
| `Catalog.CatalogService.UpdateStatus` | idp-portal/django_backend/catalog/services.py:472-528 | the answer to a transition, and the row it leaves: drafts are published, published rows disabled, disabled rows enabled; one that leaves DISABLED fails on a soft-deleted row |
| `Catalog.CatalogService.FindWorkflowsReferencing` | idp-portal/django_backend/catalog/services.py:705-746 | exactly the draft and published workflows with a step that names the action |
| `Catalog.CatalogService.DeactivateAction` | idp-portal/django_backend/catalog/services.py:576-656 | the action and exactly the workflows in use with a step that has its number become disabled and soft-deleted; nothing else changes |
| `Catalog.CatalogService.ReactivateAction` | idp-portal/django_backend/catalog/services.py:658-698 | the answer to a reactivation, and the row it leaves, published and no longer soft-deleted |
| `Catalog.CatalogService.DeleteAction` | idp-portal/django_backend/catalog/services.py:535-574 | removes the row exactly when it exists and has no executions |
| `Catalog.CatalogService.UpdateExecutionSteps` | idp-portal/django_backend/catalog/services.py:835-918 | steps change only in draft and disabled rows; those of a workflow only when the validator, run in place, accepts them for this action, and they are stored with its defaults |
| `Catalog.EveryRunSound` | idp-portal/django_backend/catalog/services.py:59-128 | over every run of creations, publications, deactivations, reactivations and step edits, one after the other, with plain actions referenced by number, every published workflow references only existing published actions |
| `Catalog.DeactivateKeepsSoundIff` | idp-portal/django_backend/catalog/services.py:576-656 | a deactivation keeps that exactly when the cascade, one level deep and by equal number, covers all that depends on the action |
| `Catalog.DeactivationClearsIff` | idp-portal/django_backend/catalog/services.py:705-746 | after it no draft or published workflow references the action exactly when none referenced it by a value that only converts to its number |
| `Catalog.WithoutCascadeIff` | idp-portal/django_backend/catalog/services.py:472-574 | the disable transition and deletion keep published workflows sound exactly when no other published workflow references the action |
| `Catalog.EditItemTypeKeepsSoundIff` | idp-portal/django_backend/catalog/services.py:397-398 | turning a published item into a workflow keeps it sound exactly when its unchecked references are all published |
| `Catalog.ImportKeepsSoundIff` | idp-portal/django_backend/catalog/services_export_import.py:349-395 | an import, which skips the publication check, keeps published workflows sound exactly when what it publishes references published actions only and no other published workflow depends on what it takes back |
| `CatalogRaces.SideBySideKeepsSoundIff` | idp-portal/django_backend/catalog/services.py:576-698 | a deactivation and a reactivation or enabling that have both looked at the same rows, and write in either order, keep that exactly when what is revived references neither the action nor a workflow disabled with it |
| `CatalogRaces.ReactivationRace` | idp-portal/django_backend/catalog/services.py:658-746 | so a reactivation beside the deactivation of an action it references breaks it, where one after the other the one is refused or the other cascades |
| `CatalogRaces.StaleEditKeepsSoundIff` | idp-portal/django_backend/catalog/services.py:835-918 | a change of steps reads its row without a lock and writes all of it back: if the row was published in between, that keeps published workflows sound exactly when none depends on it |
| `LogBuffer.SplunkLoggingHandler.Emit` | idp-portal/django_backend/core/splunk_logging_handler.py:145-177 | drops the oldest event when full, appends, and flushes at the batch size; nothing when disabled, closed or unformattable |
| `LogBuffer.SplunkLoggingHandler.Flush` | idp-portal/django_backend/core/splunk_logging_handler.py:206-252 | sends the whole queue, or counts it as dropped |
| `LogBuffer.SplunkLoggingHandler.Close` | idp-portal/django_backend/core/splunk_logging_handler.py:259-268 | the closing flush does nothing: what is queued is neither sent nor counted |
| `LogBuffer.EveryRun` | idp-portal/django_backend/core/splunk_logging_handler.py:145-252 | over every run of emits and flushes one after the other: accepted = sent + dropped + queued; the queue is the latest part of what was accepted and what was sent a subsequence of the rest; both bounds on the queue hold |
| `LogBuffer.NothingDroppedIff` | idp-portal/django_backend/core/splunk_logging_handler.py:254-257 | the drop counter is zero exactly when everything accepted was sent or is queued, in order |
| `LogBuffer.NeverOverflowsIff` | idp-portal/django_backend/core/splunk_logging_handler.py:157-174 | with Splunk answering, no run drops an event exactly when the queue has room for a batch or is unbounded |
| `LogThreads.EveryInterleaving` | idp-portal/django_backend/core/splunk_logging_handler.py:138-246 | with the timer's flushes interleaved with emits: every accepted event is sent, dropped, queued or in the hand of one of the two threads, the drop counter never says too much, no emit fails to put its event, and the queue keeps its bound |
| `LogThreads.CounterExactIff` | idp-portal/django_backend/core/splunk_logging_handler.py:157-168 | the drop counter is exact under every interleaving, but for what a thread is about to add, if and only if a batch fits the queue or the queue is unbounded |
| `LogThreads.OrderKeptIff` | idp-portal/django_backend/core/splunk_logging_handler.py:206-223 | events are sent in the order of emission under every interleaving if and only if no batch fits the queue: so the counter is exact or the order is kept, never both |

## Left out

- Types of JSON values: a step list is a list of step objects whose fields have their expected types; the checks that
  reject other shapes are not modelled. A step type or order that is null is treated as missing, and step names and
  other fields the modelled code does not read are dropped.
- WaveExecutor.ContainerWorkflowRuntime.ExecuteWaves: requires that single-target error lists form no cycle, because
  the loop of the source does not end otherwise; WaveTermination.HaltsIffNoErrorCycle shows the condition is exact.
- WaveGraph.AcceptedRunLength: asks that fallbacks close no cycle when success lists are missing, because the
  validator does not see them: WaveLength.AcceptedCanCircle runs past any such bound, and WaveTermination.AcceptedHalts
  bounds every accepted workflow.
- WaveLength.RunLengthFromIff: is an equivalence for workflows in which no step is named twice or no list names two
  steps; elsewhere a join policy may keep a run from ever going round a cycle, so there only WaveGraph.RunLength is
  stated.
- WaveEntries.GatesAloneIff: is an equivalence for workflows without join points and cycles, whose success lists are
  all present, whose targets name steps, whose ids have no surrounding blanks and whose size is within the cap. At a
  join point the policy may hold a step back; a step whose id has surrounding blanks is an entry although a list names
  it, so it is dispatched twice and the cap may end the run first. With success lists present WaveGateDepth.NoGateBesideAlone gives the one direction in all these cases.
- The conditions of gates, and the nulling of references when a referenced action is deleted.
- The start order of a fan-out's threads: parallel rows are written in the order steps finish.
- The queue path that executes a single step, the platform step executor with its retries and child executions, and
  resuming after a gate beyond the wave it starts with.
- Input and output mapping, heartbeats, locks on rows, notifications, broadcasting, logging and correlation ids.
- Sorting of steps when they are loaded, and rounding or length limits of columns.
- DefinitionStore.DefinitionTables.SyncFromJson: one sequence of identities serves all tables.
- The race in which another transaction creates the imported action between the lookup and the insert; import modes
  other than additive and full; audit entries; sync dates and hashes; the sorting of exported tags and rules.
- The per-field loop of an update: a row's fields are compared and replaced as one record, which sets the same values.
- Lower case beyond ASCII letters.
- Reads of workflow references from the normalised tables, mutex checks at run time, tags and audit of the catalogue.
- The steps of a workflow inside ExecutionStatus: between start and finalisation a run's work is one step with any
  outcome.
- LogThreads.EveryInterleaving: has one thread that emits, as the logging framework runs emits one at a time, and one
  timer; closing the handler is not interleaved.
- Catalogue requests beyond two side by side, and row locks as such: CatalogRaces says what two requests write that have
  looked at the same rows.
- The rollout percentage and its hash; the global switch of feature flags; the text of 503 responses.
