# Taskpps orchestration: a verified model

Taskpps turns a pipeline of subpipelines and tasks into an ordered, bounded and failure-aware
execution on remote agents. This project models that machinery in Dafny and proves what it
guarantees: on every graph, for every completion order, for every interleaving of agents,
connections and executors. `dafny verify dfyconfig.toml` checks the whole project.

## The modules

**Graphs and levels** (`Graph`, `Listing`, `Levels`, `Kahn`, `Closure`, `Dag`). A dependency graph maps
each name to its list of dependencies; lists may repeat a name, so in-degrees are counted with
multiplicity. `Dag` is the task DAG with its mutable task objects: building it rewrites the tasks.
The sort and the levelling fail exactly on cyclic graphs, which needs a cycle to be extracted from a
leftover set in which every node still waits; the levelling is characterised by longest chains, which
makes it unique. `AcceptThenLevel` settles a point where a comment and the code disagree
(`server/taskpps/engine/runner.py`, lines 576-578): a pipeline that went through run creation has its tasks chained
already, so a parallel subpipeline does not put undeclared tasks into one level.

**Running** (`Subpipelines`, `Trace`, `Scheduler`, `SubRun`, `PipelineRun`). Task and subpipeline outcomes
are an arbitrary function, completion order is arbitrary, and the cancellation flag can turn on at every
check. Tasks of all subpipelines share one semaphore. A trace of starts and finishes carries the
ordering and the bound on tasks in flight; the books (`Accounted`, `Kept`) say which tasks and
subpipelines ran, failed or were skipped, without the loops. `EndsAs` tells how an uncancelled
subpipeline ends from its declared tasks, policies and outcomes.
Where the code runs things one at a time, `LevelByLevel` gives their order and `ExecutionOrder` says what that
means. `FinalBooksMean` and `WhoWasExecuted` spell the skip rules out on the declared policies.
`PipelineRun.Run` executes every subpipeline through `SubRun.ExecuteSubpipeline`, so that its status is
explained by the outcomes of single tasks, and one trace covers the whole pipeline.

**Retrying** (`Qualified`, `Retry`, `Targets`). The flattened graph is built by matching name prefixes.
`FlattenAsIntended` gives the exact condition under which that finds the right tasks, and
`DottedNameMakesCycle` an input where it does not. Acyclicity follows from a two-level graph: walks stay
inside a subpipeline or move to one it depends on.

**Agents** (`Commands`, `CommandRunner`, `Slots`). `Commands` is the protocol between server and agents
as steps over connection records, tables of pending commands and futures. References are numbered, so two records
sharing one table are two records with the same table number. The methods of `AgentManager` are proved
to perform exactly these steps; the invariants are proved about the steps and about whole runs.
`CommandRunner` is the agent's end: a read loop that checks, starts and enters one command before it
reads the next message (`execution_agent/agent/wsclient.go`, lines 131-177, calling
`execution_agent/agent/agent.go`, lines 44-46), and one goroutine per process. `ResultsTellTheTruth`
joins both ends: a result carries the status of a process of that command. `Slots` models the
global and per-agent semaphores in the same way.

**Definitions, templates, logs, completion** (`Definitions`, `Substitution`, `LogReader`, `Completer`).
The definition table is reconciled with the pipeline files; templates are substituted in at most ten
passes; a growing log is read in pieces; a command line is split at unquoted blanks.

## What the code does not guarantee

Where a property one would expect is false of the code, the model keeps the code, proves exactly when
the property holds, and gives an input on which it fails.

- The strategy of a subpipeline changes its books unless its tasks are chained already:
  `StrategyDoesNotMatterIff`, `StrategiesDiffer`. A task that raises changes its end even then: in parallel it is
  booked as failed, under the failure policies; in sequence the exception leaves the subpipeline, which fails the
  run and takes all dependents down: `SeparateIffEscapes`, `StrategyNeverMattersIff`, `OneTaskRaises`.
- The prefix rule of the flattened graph: `FlattenAsIntended`, `DottedNameMakesCycle`.
- The order between subpipelines in a retry is lost through a subpipeline without tasks: `CrossOrder`,
  `EmptySubLosesOrder`. Inside a subpipeline it is the declared order, without the chain that the run followed:
  `RetryKeepsOrderIff`, `TwoStepsLoseOrder`.
- A global permit is lost when a wait for an agent's slot is cancelled, and when a request for no
  capacity (`server/taskpps/schemas/agent.py`, line 120, accepts zero) meets an agent without a semaphore:
  `PermitsShrinkIff`, `CancellationCanDeadlock`, `ZeroRequestCanDeadlock`.
- Removing the limit strands the executors that wait for it, and replacing it lets them in on the old one's
  permits; introducing one while executors run lets too many in: `DeadlockIff`, `RemovedWaiterStarves`,
  `RemovalCanDeadlock`, `GlobalLawKeptIff`, `ReplacedLimitLetsTooManyIn`, `LateLimitLetsTooManyIn`. The server
  configures its limit once, at start-up, before any executor exists (`server/taskpps/main.py`, lines 301-304);
  then losing the whole limit is the only deadlock: `StuckIffAllLost`.
- Registering a command id that is still waiting leaves its future behind: `WaitingKeptIff`,
  `SameIdOrphans`. Command ids are drawn at random, and runs are taken not to repeat them.
- The agent's table misses a process between its start and its entry, and lists it a little longer than
  it lives: `TableOverRuns`, `BothWindowsOccur`.
- Renaming can give a path two rows, and renaming back need not restore: `RenameKeepsApartIff`,
  `RenameKeepsSoundIff`, `RenameBackRestoresIff`, `RenameCanClash`, `DeletedFileIsInTheWay`,
  `RenameBackCanMoveMore`.
- Ten passes do not resolve longer chains of references, nor cyclic ones: `RoundsResolveIff`,
  `SelfReferenceStays`. A value can complete an opening of the text around it: `ValueCompletesOpening`.
- Bytes that arrive after a partial read continue a line that was already emitted: `LinesSplitIff`,
  `LateByteSplitsALine`.

## Model

| member | source | states |
|---|---|---|
| Dag.DAG.Init | server/taskpps/domain/dag.py:14-18 | indexes the tasks by name and remembers their declaration order |
| Dag.DAG.ChainTasks | server/taskpps/domain/dag.py:26-32 | every task without dependencies, except the first, is rewritten in place to depend on the task declared before it; all others keep theirs |
| Dag.DAG.AddEdge | server/taskpps/domain/dag.py:38-39 | one dependency is entered in both directions, and the adjacency lists stay the transpose of the dependency lists, multiplicities included |
| Dag.DAG.AddEdges | server/taskpps/domain/dag.py:35-39 | all dependencies of one task are entered, or the first unknown one is reported |
| Dag.DAG.Connect | server/taskpps/domain/dag.py:22-39 | succeeds exactly when every dependency is declared, and then holds exactly the declared graph with its transpose; otherwise names the first task with an unknown dependency and its first unknown one |
| Dag.DAG.Create | server/taskpps/domain/dag.py:14-39 | a DAG is built exactly when all dependencies are known; the tasks carry the chained dependencies afterwards even when building fails; the graph held is the declared one, in declaration order |
| Kahn.CountInDegrees | server/taskpps/domain/dag.py:42-45 | counting the adjacency lists gives every task the number of entries in its dependency list, duplicates included |
| Kahn.Relax | server/taskpps/domain/dag.py:53-56 | takes a task's outgoing edges off and queues exactly the neighbours whose in-degree thereby reaches zero, each once |
| Kahn.TopologicalSort | server/taskpps/domain/dag.py:41-62 | fails exactly on cyclic graphs and then reports exactly the tasks on a cycle or depending on one; otherwise a permutation of all tasks with every dependency first |
| Dag.DAG.TopologicalSort | server/taskpps/domain/dag.py:41-62 | the same for the DAG object |
| Graph.LeftoverHasCycle | server/taskpps/domain/dag.py:58-60 | from any task of a leftover set in which every task still waits for a leftover task, a cycle inside the set can be reached |
| Graph.LeftoverIsStuck | server/taskpps/domain/dag.py:58-60 | what the loop leaves over is exactly the set of tasks that lie on a cycle or depend on one |
| Graph.CyclicIffStuck | server/taskpps/domain/dag.py:58-60 | there is a cycle exactly when some task can never be scheduled |
| Levels.InDeclarationOrder | server/taskpps/domain/dag.py:74 | sorting a level by position yields the level's members in the order of their declaration, whatever order the set was listed in |
| Levels.ReadyLevel | server/taskpps/domain/dag.py:71-74 | the nodes whose in-degree has dropped to zero, sorted, are exactly the level that is due: the tasks whose longest dependency chain has the level's index |
| Levels.NextLevel | server/taskpps/domain/dag.py:70-79 | the next level is exactly the tasks whose longest dependency chain has the level's index, in declaration order; the in-degrees afterwards count the edges that remain |
| Levels.PeelLevels | server/taskpps/domain/dag.py:64-81 | fails exactly on cyclic graphs, with exactly the stuck tasks; otherwise level k lists, in declaration order, the tasks whose longest dependency chain has k edges, and no level is empty |
| Dag.DAG.GetExecutionLevels | server/taskpps/domain/dag.py:64-81 | the same for the DAG object, with in-degrees taken from the dependency lists |
| Levels.LevellingUnique | server/taskpps/domain/dag.py:70-75 | a graph has at most one levelling, so the iteration order of sets cannot show |
| Levels.LevellingPartitions | server/taskpps/domain/dag.py:64-81 | every task stands in exactly one level, once, and that level's index is the length of its longest dependency chain |
| Levels.DependencyIsEarlier | server/taskpps/domain/dag.py:64-81 | whatever a task depends on, directly or transitively, stands in a strictly earlier level |
| Levels.WaitsForPreviousLevel | server/taskpps/domain/dag.py:70-79 | a task above the first level depends directly on a task of the level just below: no task starts later than it must |
| Closure.Search | server/taskpps/domain/dag.py:83-103 | the breadth-first search finds exactly the nodes reached by one or more edges, on cyclic graphs too, and nothing for an unknown name |
| Closure.ReachTransposed | server/taskpps/domain/dag.py:83-103 | following the adjacency lists is following the dependencies backwards, so the two closures are inverse relations |
| Dag.DAG.GetDependents | server/taskpps/domain/dag.py:83-92 | exactly the tasks that depend on the given one, directly or transitively |
| Dag.DAG.GetDependencies | server/taskpps/domain/dag.py:94-103 | exactly the tasks the given one depends on, directly or transitively |
| Dag.ChainedAgain | server/taskpps/domain/dag.py:26-32 | chaining tasks that were chained before changes nothing |
| Dag.ChainRunsOneByOne | server/taskpps/domain/dag.py:26-32 | with no declared dependency the levels are single tasks in declaration order |
| Dag.ChainedAcyclicIsAcyclic | server/taskpps/domain/dag.py:26-32 | if the chained tasks have no unknown dependency and no cycle, neither have the tasks as declared |
| Dag.AcceptThenLevel | server/taskpps/services/pipeline_service.py:211-216 | validation with a chained DAG succeeds exactly when the runner's later levelling of the same task objects succeeds, under either strategy, and both see the same chained dependencies |
| Subpipelines.AddDependencies | server/taskpps/engine/runner.py:525-531 | enters one subpipeline's dependencies into adjacency lists and in-degrees, or reports the first unknown one |
| Subpipelines.BuildSubpipelineLevels | server/taskpps/engine/runner.py:509-547 | levels the subpipelines exactly when all dependencies are known and there is no cycle, by longest chain and in declaration order; otherwise names the first unknown dependency or exactly the stuck subpipelines |
| Subpipelines.LevellingRanks | server/taskpps/engine/runner.py:533-547 | a levelling ranks every subpipeline above what it depends on, which is what makes the recursion over dependents end |
| Subpipelines.GetSubpipelineDependents | server/taskpps/engine/runner.py:549-555 | on every graph that can be levelled the recursion ends and returns exactly the subpipelines that depend on the given one, directly or transitively |
| Scheduler.EffectiveLimit | server/taskpps/engine/runner.py:661-663 | a positive setting is the limit; a missing or non-positive one means five |
| Scheduler.PipelineRunner.TaskPermits | server/taskpps/engine/runner.py:246-249 | the pipeline's semaphore has as many permits as its own setting says if that is positive, else five |
| Scheduler.PipelineRunner.CheckCancelSignal | server/taskpps/engine/runner.py:116-123 | the flag may turn on at any check if somebody asks for a cancellation, not otherwise, and never turns off |
| Scheduler.ParallelRun.Schedule | server/taskpps/engine/runner.py:683-689 | adds the next task to the pending set |
| Scheduler.ParallelRun.Begin | server/taskpps/engine/runner.py:814-824 | a task that has passed its check starts executing only when one of the pipeline's permits is free, that is, when fewer tasks than the pipeline's positive setting, or five, are executing, which keeps the bound |
| Scheduler.ParallelRun.SomebodyGoesOn | server/taskpps/engine/runner.py:814-824 | while tasks are pending one of them can go on: if all permits are taken, by those that hold them |
| Scheduler.ParallelRun.FreePermitSuffices | server/taskpps/engine/runner.py:814-824 | no pending task is held up while fewer tasks execute than the pipeline's positive setting, or five |
| Scheduler.ParallelRun.Advance | server/taskpps/engine/runner.py:671-689 | a task that can go on does: past its check, or to its execution, or to its end; only one that finds the run cancelled at its check is over without having executed |
| Scheduler.ParallelRun.Wait | server/taskpps/engine/runner.py:695-704 | at least one pending task leaves the pending set with its result; others may begin or finish meanwhile |
| Scheduler.ParallelRun.CancelPending | server/taskpps/engine/runner.py:706-718 | after a cancellation nothing stays pending, and every cancelled task has a result |
| Scheduler.ParallelRun.Refill | server/taskpps/engine/runner.py:720-721 | afterwards the limit is reached or everything is scheduled; unscheduled plus pending tasks are unchanged in number |
| Scheduler.ParallelRun.Run | server/taskpps/engine/runner.py:659-726 | for every completion order: never more tasks executing than the subpipeline's limit, nor than the pipeline's setting if positive, else five; no task starts twice, everything started has finished, every slot has a result that is the task's own outcome or, only if cancelled, a cancellation; after a cancellation nothing starts; the loop ends because unscheduled plus pending tasks decrease |
| SubRun.ShouldSkip | server/taskpps/engine/runner.py:618-636 | true exactly when a dependency failed and either failed for infrastructure reasons or neither side says continue |
| SubRun.AnyInfra | server/taskpps/engine/runner.py:645-650 | true exactly when some dependency is marked as an infrastructure failure |
| SubRun.PickRunnable | server/taskpps/engine/runner.py:610-654 | splits a level into the tasks to skip, which are booked as failed (and as infrastructure failures if a dependency is one), and the tasks to run, in the level's order, each decided by the state before the level |
| SubRun.Record | server/taskpps/engine/runner.py:736-771 | books each result on the task at the same position: non-zero exits and exceptions as failed, flagged non-zero exits also as infrastructure failures, everything else as completed |
| SubRun.RunSequentially | server/taskpps/engine/runner.py:727-734 | runs the tasks in order, one in flight; a cancellation leaves the remaining ones without result, and the level is left by an exception exactly when a started task raised; the events follow the order of the list |
| SubRun.RunTasks | server/taskpps/engine/runner.py:656-734 | both strategies: every result is the task's own outcome or a cancellation, and without cancellation or exception every task has one |
| SubRun.AccountGrows | server/taskpps/engine/runner.py:599-771 | booking one level's skips and results on correct books gives correct books again |
| SubRun.ExecuteLevel | server/taskpps/engine/runner.py:599-771 | one level keeps the whole account: who ran, who failed, who was skipped and why |
| SubRun.ExecuteLevels | server/taskpps/engine/runner.py:599-771 | over all levels: no task starts before everything it depends on that runs at all has finished, the in-flight bound holds throughout, and without cancellation every task ends in exactly one of failed and completed |
| SubRun.ExecuteSubpipeline | server/taskpps/engine/runner.py:557-788 | from declared tasks to outcome: an exception escapes exactly when a task that started one after the other raised; a DAG error exactly when a dependency is unknown or the graph is cyclic, and then nothing runs; otherwise the account and order above, on the dependencies the tasks were given; uncancelled, the end is the one that the declared tasks, the policies and the outcomes determine |
| SubRun.FinalBooksMean | server/taskpps/engine/runner.py:618-654 | in the final books, told from the policies and outcomes alone: a task ran exactly when every failed dependency is no infrastructure failure and its own or that dependency's policy, the subpipeline's where it has none, is continue; it failed exactly when it did not run, raised or exited with another code than zero; it is marked exactly when it ran and reported a flagged failure, or did not run and a dependency is marked |
| SubRun.ToleratedFailure | server/taskpps/engine/runner.py:630-636 | a failed dependency that continues by its own policy, or whose dependent does, or both by the subpipeline's, does not keep the dependent from running |
| SubRun.FailureThatBlocks | server/taskpps/engine/runner.py:624-636 | without any continue the dependent is skipped, also where both sides say fail against the subpipeline's continue; a flagged failure blocks and marks it even if everybody says continue |
| SubRun.CancelledIsFailed | server/taskpps/engine/runner.py:706-718 | a task that was cancelled before it started is booked as failed, never as completed or as an infrastructure failure |
| SubRun.ExecutionOrder | server/taskpps/engine/runner.py:599-734 | what the order of a sequential execution, and of the subpipelines, means: a longer dependency chain never comes before a shorter one, and within a level the order is that of the declarations |
| SubRun.InfraBlocks | server/taskpps/engine/runner.py:626-630 | a task with an infrastructure-failed dependency, direct or transitive, never runs and is marked itself, whatever the policies say |
| SubRun.RunsIffDependenciesCompleted | server/taskpps/engine/runner.py:619-636 | when no policy says continue, a task runs exactly when everything it depends on, directly or transitively, completed |
| SubRun.ScheduleDoesNotMatter | server/taskpps/engine/runner.py:656-771 | two uncancelled executions with the same dependencies, policies and outcomes end with the same books and ran the same tasks, whatever the limit and the completion order |
| SubRun.BooksExist | server/taskpps/engine/runner.py:599-771 | for every acyclic graph, policies and outcomes there are final books, so the one above is the only one |
| SubRun.RaisesIsEscape | server/taskpps/engine/runner.py:727-734 | whenever the next task of a sequential execution raises, it is one that runs and raises in the final books: whether an exception escapes does not depend on how far the execution has come |
| SubRun.EndsOneWay | server/taskpps/engine/runner.py:557-788 | for all declared tasks, policies, outcomes and either strategy there is exactly one way for an uncancelled execution to end: DAG error, exception, or one set of books |
| SubRun.StrategyDoesNotMatterIff | server/taskpps/engine/runner.py:576-579 | as long as no task raises, both strategies end alike on the same declared tasks, for all policies and outcomes, if and only if chaining leaves the tasks as they are, as it does after run creation, or they cannot be levelled as declared, which is a DAG error for both |
| SubRun.StrategiesDiffer | server/taskpps/engine/runner.py:576-579 | a task without dependencies whose predecessor fails runs in parallel; in sequence, when no policy says continue, no execution that ends with books has run it |
| SubRun.SeparateIffEscapes | server/taskpps/engine/runner.py:727-745 | on tasks that chaining leaves alone the two strategies end differently if and only if some task runs and raises |
| SubRun.RaisingSeparates | server/taskpps/engine/runner.py:727-745 | a task that runs and raises always separates the strategies: the parallel one books it as failed, the sequential one is left by the exception |
| SubRun.StrategyNeverMattersIff | server/taskpps/engine/runner.py:727-745 | if tasks may raise, the strategies are interchangeable if and only if there are no tasks or they cannot be levelled |
| SubRun.OneTaskRaises | server/taskpps/engine/runner.py:727-745 | a single task that raises: failed in the parallel books, an exception in sequence, though chaining leaves the tasks alone |
| PipelineRun.BookOne | server/taskpps/engine/runner.py:321-352 | after one subpipeline the failed set is exactly the executed failures and whatever depends on a fatal one, and the completed set exactly the successes |
| PipelineRun.ExecuteOne | server/taskpps/engine/runner.py:310-313 | executes the tasks of one subpipeline: its trace is bounded and in order, a sequential one level by level in declaration order; without cancellation it ends in the one way that its tasks, its configuration and the outcomes determine |
| PipelineRun.SegmentKeepsOrder | server/taskpps/engine/runner.py:283-352 | appending the trace of a subpipeline on which nothing that ran depends keeps every start behind what it waits for |
| PipelineRun.RunSub | server/taskpps/engine/runner.py:307-352 | executes and books one subpipeline: the trace of the whole pipeline stays sound, every outcome is explained by the tasks' own, and the other subpipelines' tasks are untouched |
| PipelineRun.RunLevel | server/taskpps/engine/runner.py:291-352 | one level keeps all this, and executes exactly the subpipelines not already marked, one after the other in the level's order, unless cancelled |
| PipelineRun.RunLevels | server/taskpps/engine/runner.py:283-360 | so does the whole loop; without cancellation every subpipeline is either executed or marked through a dependency |
| PipelineRun.Run | server/taskpps/engine/runner.py:204-392 | the whole pipeline, task by task: no task runs twice or starts before everything it waits for, in its own subpipeline and in all those before it, has finished; at no moment do more tasks execute than the pipeline's positive setting, or five, allows, or than any bound on the subpipelines' own limits; subpipelines run one at a time, level by level in YAML order; uncancelled, a subpipeline is left out exactly when it depends on an executed one that raised, or that failed with another policy than continue, the completed ones are exactly the executed successes and all others failed; SUCCESS exactly when the subpipelines can be levelled and every task of every one of them ran without failing; PARTIAL only when some failed and some completed; CANCELLED exactly when cancelled; otherwise FAILED; a run cancelled from the start executes nothing |
| PipelineRun.WhoWasExecuted | server/taskpps/engine/runner.py:314-352 | at the end of an uncancelled run a subpipeline has not been executed exactly when it depends, directly or transitively, on an executed one from which an exception escaped, or whose failure its policy does not let pass; completed are exactly the executed ones without failed tasks, failed all others |
| PipelineRun.WholeRunIsDetermined | server/taskpps/engine/runner.py:283-392 | two uncancelled runs of the same declared pipeline with the same task outcomes execute the same subpipelines, with the same books for each, start the same tasks in each that ends with books, and end with the same failed and completed sets |
| PipelineRun.CompletedIffTasksSucceeded | server/taskpps/engine/runner.py:368-383 | without cancellation all subpipelines have completed exactly when every task of every subpipeline ran and none of their outcomes fails |
| PipelineRun.EndedMeans | server/taskpps/engine/runner.py:368-383 | without cancellation the two sets cover all subpipelines, and nothing failed means everything completed |
| PipelineRun.SkippedIffDoomed | server/taskpps/engine/runner.py:291-352 | in an uncancelled run a subpipeline is skipped exactly when something it depends on, directly or transitively, executed and raised, or failed under a policy other than continue |
| PipelineRun.RunIsDetermined | server/taskpps/engine/runner.py:283-360 | two uncancelled runs in which whatever both execute ends alike execute the same subpipelines and book them alike |
| Qualified.QualifyTasks | server/taskpps/engine/retry_runner.py:98-111 | new task objects under qualified names, with their own dependencies qualified |
| Qualified.Inherit | server/taskpps/engine/retry_runner.py:117-119 | appends the names to every task whose qualified name starts with the prefix, and to no other |
| Qualified.InheritAll | server/taskpps/engine/retry_runner.py:113-119 | does so for everything one subpipeline depends on, in the order of its dependency list |
| Qualified.BuildQualifiedTasks | server/taskpps/engine/retry_runner.py:95-121 | the flattened tasks are exactly those of the string-prefix rule, in order, duplicates included |
| Qualified.FlattenAsIntended | server/taskpps/engine/retry_runner.py:113-119 | the prefix rule gives each task exactly the dependencies of its own subpipeline if and only if no task carries the prefix of a foreign subpipeline that has something to pass on |
| Qualified.DotlessHasNoForeignPrefix | server/taskpps/engine/retry_runner.py:118 | subpipeline names without dots are enough for that |
| Qualified.DotlessNamesAreDistinct | server/taskpps/engine/retry_runner.py:101 | and keep the qualified names of all tasks apart |
| Qualified.DottedNameMakesCycle | server/taskpps/engine/retry_runner.py:118 | with subpipelines named a and a.b, a pipeline that can be levelled flattens to a cyclic graph |
| Qualified.TwoLevelSteps | server/taskpps/engine/retry_runner.py:113-119 | a walk in a graph of two levels stays with its owner along the owner's own graph, or ends at an owner that the first one depends on |
| Qualified.TwoLevelAcyclic | server/taskpps/engine/retry_runner.py:89-93 | if the outer graph and every inner graph are acyclic, so is the flattened one |
| Qualified.FlattenedIsAcyclic | server/taskpps/engine/retry_runner.py:89-121 | a pipeline whose subpipelines can be levelled and whose task graphs are acyclic flattens to an acyclic graph without unknown names |
| Qualified.DependedOnIsEarlier | server/taskpps/engine/retry_runner.py:113-119 | every task of a depended-on subpipeline stands in a strictly earlier level than every task of the depending one |
| Qualified.CrossOrder | server/taskpps/engine/retry_runner.py:113-119 | when no prefix matches a foreign task, a task waits for a task of another subpipeline exactly when the subpipelines depend on each other through subpipelines that all have tasks |
| Qualified.EmptySubLosesOrder | server/taskpps/engine/retry_runner.py:113-119 | three subpipelines in a row, the middle one empty: the last depends on the first, but its task waits for nothing |
| Qualified.InnerOrder | server/taskpps/engine/retry_runner.py:98-111 | inside a subpipeline a task of the flattened graph waits for another exactly when it is declared to, directly or not |
| Qualified.RetryKeepsOrderIff | server/taskpps/engine/retry_runner.py:89-93 | whatever a subpipeline's tasks waited for in the run, where they were chained, they wait for in the retry, if and only if chaining adds nothing to them as declared |
| Qualified.FreeTaskLosesOrder | server/taskpps/engine/retry_runner.py:89-93 | a task that follows another without declaring it waited for it in the run and does not in the retry |
| Qualified.TwoStepsLoseOrder | server/taskpps/engine/retry_runner.py:89-93 | two steps without dependencies run one after the other and are retried together |
| Trace.BatchKeepsOrder | server/taskpps/engine/retry_runner.py:62-76 | running a further batch, on which nothing earlier depends and whose members do not depend on each other, keeps every start behind its dependencies |
| Retry.FilterLevels | server/taskpps/engine/retry_runner.py:89-93 | the planned levels hold exactly the planned tasks of the graph, each once, and none waits for a task of its own or a later planned level, even through unplanned tasks |
| Retry.Gather | server/taskpps/engine/retry_runner.py:70-76 | all tasks of a level run once, at most as many past the semaphore as it allows, and each result is the task's own |
| Retry.RunOneByOne | server/taskpps/engine/retry_runner.py:63-68 | the same one at a time, in order |
| Retry.ExecutePlan | server/taskpps/engine/retry_runner.py:60-87 | every planned task runs exactly once, also names that stand in no level, and none before a planned task it depends on has finished |
| Retry.RetryLimit | server/taskpps/engine/retry_runner.py:53 | any setting but zero is the limit; a missing or zero one means ten |
| Retry.RetryTasks | server/taskpps/engine/retry_runner.py:50-93 | a retry fails, before running anything, exactly when the flattened graph has an unknown name (the first is named) or a cycle (exactly the stuck tasks are named) or the limit is negative; otherwise each planned task runs exactly once, in dependency order through unplanned tasks, within the limit |
| Retry.AcceptedCanBeRetried | server/taskpps/engine/retry_runner.py:89-93 | a pipeline whose subpipelines were accepted and can be levelled never meets an unknown name or a cycle when it is retried, if no subpipeline's prefix matches a foreign task |
| Targets.LevelIndex | server/taskpps/services/pipeline_service.py:688 | the index of the first level that lists the name, or 999 if none does |
| Targets.Upstream | server/taskpps/services/pipeline_service.py:681-683 | exactly what some requested task depends on |
| Targets.Arrange | server/taskpps/services/pipeline_service.py:684-688 | the requested and upstream tasks, each once if the request has no duplicates, none before something it depends on |
| Targets.ChosenIsClosed | server/taskpps/services/pipeline_service.py:681-686 | whatever a chosen task depends on is chosen as well |
| Targets.SelectTargets | server/taskpps/services/pipeline_service.py:678-688 | the targets are exactly the request and everything it depends on, closed under dependencies, dependencies first, names that stand in no level last; it fails exactly when the flattened graph cannot be built or levelled, with the first unknown name or exactly the stuck tasks |
| Commands.AgentManager.HandleConnection | server/taskpps/services/agent_manager.py:251-287 | a reconnecting agent's new record shares the old record's table of pending commands; an unknown agent gets an empty one; nothing else changes |
| Commands.AgentManager.Disconnected | server/taskpps/services/agent_manager.py:289-295 | marks the current record as gone, unless the caller holds a record that was replaced, which changes nothing; pending commands stay |
| Commands.GoesDownIff | server/taskpps/services/agent_manager.py:289-296 | at any step a record goes from alive to not alive exactly when it is some agent's current one and the step is a disconnect of that agent without a handle or with this record's; it comes back exactly by its own heartbeat |
| Commands.StaleHandleChangesNothing | server/taskpps/services/agent_manager.py:291-292 | a disconnect with the handle of a replaced record, or of an agent without one, changes nothing |
| Commands.LostMeansDisconnected | server/taskpps/services/agent_manager.py:289-296 | over every run a record is not alive if and only if it was disconnected while it was its agent's current one, and no heartbeat arrived on it since |
| Commands.LateDisconnectIsIgnored | server/taskpps/api/ws_agent.py:73-75 | an agent connects twice and the first socket's handler ends: nothing changes, and the current record stays alive |
| Commands.AgentManager.CreatePending | server/taskpps/services/agent_manager.py:487-504 | a new waiting future in the agent's current table, overwriting an entry under the same id, or a failed one if the agent is not connected |
| Commands.AgentManager.PendingFuture | server/taskpps/executors/agent_executor.py:201-220 | the future already pending under the command, or a new one; looking first never leaves a waiting future behind |
| Commands.AgentManager.PromoteCommand | server/taskpps/services/agent_manager.py:506-510 | marks a pending command as running, and says whether there was one |
| Commands.AgentManager.PopCommand | server/taskpps/services/agent_manager.py:149-170 | takes the command out of the table and completes its future only if that still waits |
| Commands.AgentManager.ResolvePending | server/taskpps/services/agent_manager.py:149-156 | a result message takes effect on the table of the record it arrives on, current or replaced |
| Commands.AgentManager.CleanupCommand | server/taskpps/services/agent_manager.py:475-485 | fails one command of a connected agent with the synthetic connection-lost result |
| Commands.AgentManager.CleanupTable | server/taskpps/services/agent_manager.py:317-328 | fails every command of a table, one after the other, and empties it |
| Commands.AgentManager.CleanupAfterGrace | server/taskpps/services/agent_manager.py:309-334 | fails and forgets the agent's record unless it was revived |
| Commands.AgentManager.StopManager | server/taskpps/services/agent_manager.py:517-529 | forgets every connection and fails everything pending on them |
| Commands.StepKeepsInv | server/taskpps/services/agent_manager.py:112-171 | every step, except a registration that overwrites a waiting command, keeps: a waiting future is pending in the current table of its own agent under its own command; no two agents share a table; only current tables hold anything; every non-synthetic result was sent by that agent for that command |
| Commands.WaitingKeptIff | server/taskpps/services/agent_manager.py:112-138 | waiting futures stay pending at a step if and only if the step does not register a command id that is still waiting |
| Commands.SameIdOrphans | server/taskpps/services/agent_manager.py:123-138 | registering one id twice leaves the first future waiting and pending nowhere |
| Commands.StepKeepsDone | server/taskpps/services/agent_manager.py:149-170 | no step changes a completed or timed-out future, or what a future belongs to |
| Commands.CompletesAtMostOnce | server/taskpps/services/agent_manager.py:149-170 | over every run a command future completes at most once, and never again once it is done |
| Commands.ReachableIsSound | server/taskpps/services/agent_manager.py:112-171 | in every reachable state waiting futures are pending with the current record and results from agents are genuine |
| Commands.WhatCompletes | server/taskpps/services/agent_manager.py:289-339 | a waiting future completes at a step exactly when the step is its own timeout or cleanup, its agent's message for its command on a record sharing the table, the end of the grace period of its absent agent, or the shutdown, and its result is then the timeout, the message or the connection-lost failure; disconnecting, reconnecting and foreign messages leave it waiting |
| Commands.OnlyHolder | server/taskpps/services/agent_manager.py:270-278 | a waiting future is held by its agent's current table only, under its own command only |
| Commands.AgentsStaySound | execution_agent/agent/executor.go:103-265 | over every run of the whole system the agents' own invariants hold |
| Commands.AgentRunsItsSteps | execution_agent/agent/executor.go:103-265 | in every run of the whole system each agent's part is a run of the agent's own protocol |
| Commands.ResultsTellTheTruth | server/taskpps/services/agent_manager.py:149-170 | from end to end, over every run: a result that completes a future carries the code of the status with which a process of that very command exited on that agent, or -1 after a start of it that failed |
| CommandRunner.Executor.Check | execution_agent/agent/executor.go:104-110 | a command that is listed is dropped, any other is accepted |
| CommandRunner.Executor.StartProcess | execution_agent/agent/executor.go:112-158 | a new process, or a result at once if it cannot be started |
| CommandRunner.Executor.InsertProcess | execution_agent/agent/executor.go:160-163 | enters the process under its command |
| CommandRunner.Executor.Execute | execution_agent/agent/executor.go:103-169 | is the run of receipt, start and insertion, with nothing in between |
| CommandRunner.Executor.WaitForCompletion | execution_agent/agent/executor.go:229-265 | is the run of return from the wait, deletion and report, and the code it sends is that of the process's own status |
| CommandRunner.ReportedCode | execution_agent/agent/executor.go:229-257 | an exit status is reported as it is, a signal negated, a failed wait as the process state's code if there is one, else as -1 |
| CommandRunner.MessagesTellTheTruth | execution_agent/agent/executor.go:229-265 | over every run, each message sent for a command carries the code of the status with which a process of that command exited, or -1 where a start of it failed |
| CommandRunner.ReportedIsSent | execution_agent/agent/executor.go:229-265 | over every run, for each process that has been reported its own exit is among the events and the code of that status among the messages |
| CommandRunner.FailureIsReported | execution_agent/agent/executor.go:229-265 | a process that exits with 1 is reported with 1, in the one message sent |
| CommandRunner.FailedStartIsReported | execution_agent/agent/executor.go:154-158 | a start that fails is reported with -1, in the one message sent |
| CommandRunner.StepKeepsInv | execution_agent/agent/executor.go:103-265 | every step keeps: insertions never overwrite an entry, deletions take out the process's own, and each entry belongs to a process that will delete it |
| CommandRunner.TableOverRuns | execution_agent/agent/executor.go:154-163 | over every run, a live process is missing from the table exactly between its start and its insertion, and an entry belongs to a dead process exactly between the exit and the deletion (lines 230-262) |
| CommandRunner.OneLivePerCommand | execution_agent/agent/executor.go:103-163 | over every run a command has at most one live process, however often it is delivered |
| CommandRunner.BothWindowsOccur | execution_agent/agent/executor.go:154-163 | a run to a live process that is not listed, and one to a listed process that is dead |
| CommandRunner.AcceptedIsReportedOnce | execution_agent/agent/executor.go:229-265 | when an agent has come to rest, every accepted command has been reported exactly once |
| Slots.SlotManager.RaiseCapacity | server/taskpps/services/agent_manager.py:361-370 | a larger request adds exactly the difference to the free permits and becomes the recorded maximum; a smaller one changes nothing |
| Slots.SlotManager.TryAgent | server/taskpps/services/agent_manager.py:372-382 | takes one permit exactly when one is free |
| Slots.SlotManager.TryGlobal | server/taskpps/services/agent_manager.py:391-405 | takes one permit when the limit is configured, one is free and the timeout is positive; without a limit nothing is taken |
| Slots.SlotManager.ReleaseAgentSlot | server/taskpps/services/agent_manager.py:384-388 | gives one permit back, if the agent is known |
| Slots.SlotManager.ReleaseGlobalSlot | server/taskpps/services/agent_manager.py:407-410 | gives one permit back, if a limit is configured |
| Slots.SlotManager.ConfigureGlobal | server/taskpps/services/agent_manager.py:412-428 | capacity only grows; a non-positive value removes the limit, and the semaphore keeps its permits for those who wait on it; the next limit is a new semaphore |
| Slots.AgentExecutor.Execute | server/taskpps/executors/agent_executor.py:96-165 | an execution that returns, also with a cleanup in the middle, leaves the permits as they were but for the raised capacity; it times out on the agent's slot exactly when none is free, and on the global one exactly when none is free under a limit or there is no time to queue; it raises, and keeps the global permit, exactly when the request is not positive and the agent has no semaphore |
| Slots.AgentExecutor.Cleanup | server/taskpps/executors/agent_executor.py:273-287 | releases the agent's slot exactly when this executor still owns it |
| Slots.StepKeepsAgentLaw | server/taskpps/services/agent_manager.py:361-388 | after every step, for each agent: free permits plus slots held equal the recorded maximum, which is the largest capacity ever requested, also when it is raised while slots are held; an agent has a semaphore exactly when a positive capacity was requested |
| Slots.GlobalLawKeptIff | server/taskpps/services/agent_manager.py:412-428 | free and held global permits never exceed the limit after a step if and only if the step does not introduce a limit while executors are already past the global slot, and nobody gets in with a removed semaphore's permit while none is missing |
| Slots.RunKeepsInv | server/taskpps/executors/agent_executor.py:130-165 | each agent's law holds over every run, for all requests and all changes of the limit |
| Slots.LimitIsLargest | server/taskpps/services/agent_manager.py:412-428 | over every run the limit is the largest one configured since it was last removed, and there is a semaphore exactly when there is one |
| Slots.WhereExecutorsGo | server/taskpps/executors/agent_executor.py:130-165 | which phase each step puts its executor into, and that it moves no other |
| Slots.PermitsShrinkIff | server/taskpps/executors/agent_executor.py:134-153 | under a limit that the step does not configure, free and held permits shrink, by one, if and only if the step is a cancelled wait for the agent's slot or a request for no capacity that raises; they grow, by one, if and only if somebody gets in with the permit of a removed semaphore |
| Slots.SurplusIsTally | server/taskpps/executors/agent_executor.py:134-165 | over every run, whatever is configured when, what is missing under the limit or beyond it is exactly what the steps since its introduction have lost and let in |
| Slots.AllReturnedMeansAllBack | server/taskpps/executors/agent_executor.py:158-165 | once every executor has returned, every agent's permits are back, and the free global ones are the limit plus the run's tally |
| Slots.SettledLimit | server/taskpps/services/agent_manager.py:400-410 | while nobody configures the limit and nobody waits on a removed semaphore, it stays, what is missing is the number of losing steps, and it is never exceeded |
| Slots.DeadlockIff | server/taskpps/executors/agent_executor.py:134-165 | some executor waits and none can acquire or finish, if and only if executors wait for a global slot, nobody is past it, and every semaphore that is waited on is exhausted |
| Slots.StuckIff | server/taskpps/executors/agent_executor.py:134-165 | over every run: the same, where the current semaphore is exhausted exactly when the run's tally has used up the limit |
| Slots.StuckIffAllLost | server/taskpps/main.py:301-304 | when the limit is configured once, before any executor exists, as the server does, executors are stuck after a run if and only if some wait for the global slot and the run has lost the whole limit; so with fewer losses somebody can always go on |
| Slots.RemovedOnlyDrains | server/taskpps/services/agent_manager.py:400-420 | a removed semaphore stays removed; only those who wait on it take its permits, and nobody adds any |
| Slots.RemovedWaiterStarves | server/taskpps/services/agent_manager.py:400-420 | whoever waits on a removed semaphore without permits can never acquire it, over every run, and waits until its own timeout |
| Slots.CancellationCanDeadlock | server/taskpps/executors/agent_executor.py:144-153 | a run under a limit of one in which one cancelled wait leaves everybody else stuck |
| Slots.ZeroRequestCanDeadlock | server/taskpps/services/agent_manager.py:361-372 | a run under a limit of one in which one request for no capacity does |
| Slots.RemovalCanDeadlock | server/taskpps/services/agent_manager.py:412-420 | a run that loses nothing and ends without a limit, in which an executor is stuck on the semaphore that was removed |
| Slots.LateLimitLetsTooManyIn | server/taskpps/services/agent_manager.py:412-428 | a run after which introducing a limit of one breaks the law |
| Slots.ReplacedLimitLetsTooManyIn | server/taskpps/services/agent_manager.py:412-428 | a run after which an executor gets in with the permit of the limit that was replaced, and breaks the new one's law |
| Definitions.Best | server/taskpps/db/repository.py:643-655 | a row of the path to which no other is preferred (active before inactive, then newer before older), or none if the path has no row |
| Definitions.PipelineDefinitionRepository.Save | server/taskpps/db/repository.py:631-681 | reuses the row of the same path, active or not, which then is active and holds the given hash (and, if anything changed, content), leaves all other rows alone, and reports a change exactly when there was one; the returned id is that of an active row of the path |
| Definitions.PipelineDefinitionRepository.Update | server/taskpps/db/repository.py:725-799 | the five bulk updates change exactly the selected active rows of the project and count them (deactivation of others: lines 683-698) |
| Definitions.BulkMeans | server/taskpps/db/repository.py:683-799 | what each of the five updates makes of every single row, spelled out: inactive rows and other projects' stay, rows not selected stay, deactivated and renamed ones change only that, their path and the time stamp |
| Definitions.PipelineDefinitionRepository.Sync | server/taskpps/api/pipelines.py:101-143 | saves the parsed files in order and deactivates all other rows; maps every parsed path to the id of an active row of that path, and nothing else |
| Definitions.ApplyKeepsSound | server/taskpps/db/repository.py:631-698 | saving and deactivating neither give a path two rows nor move an id |
| Definitions.IdsAreStable | server/taskpps/db/repository.py:631-698 | over every sequence of saves and deactivations each path has at most one row, which keeps its id |
| Definitions.IdsSurviveRenames | server/taskpps/db/repository.py:725-763 | over every sequence of operations, renames included, rows keep their ids and no id is shared or given out again |
| Definitions.SyncKeepsIds | server/taskpps/api/pipelines.py:101-143 | a synchronisation keeps one row per path and every id |
| Definitions.ActiveAfterSync | server/taskpps/api/pipelines.py:113-142 | after a synchronisation a path of the project is active if and only if its file parsed |
| Definitions.StoredAfterSync | server/taskpps/api/pipelines.py:101-143 | after a synchronisation the active row of every parsed path holds the content hash of the last parsed file of that path |
| Definitions.OtherProjectsUntouched | server/taskpps/db/repository.py:683-698 | no operation changes a row of another project |
| Definitions.RenameKeepsApartIff | server/taskpps/db/repository.py:745-763 | renaming a folder keeps active paths distinct if and only if no active row that stays already has a path that a moved row gets |
| Definitions.RenameKeepsSoundIff | server/taskpps/db/repository.py:725-763 | either rename keeps one row per path, inactive rows included, if and only if no row that stays has a path that a renamed row gets |
| Definitions.RenameCanClash | server/taskpps/db/repository.py:745-763 | two folders with a file of the same name: after the rename two active rows share a path; the endpoint refuses a target folder that exists on disk, so this needs rows whose files have gone without a synchronisation |
| Definitions.RenameBackRestoresIff | server/taskpps/db/repository.py:745-763 | renaming back restores every row, time stamps apart, if and only if no other active row lay under the new prefix |
| Definitions.RenameBackCanMoveMore | server/taskpps/db/repository.py:745-763 | renaming back then moves the files of both folders |
| Definitions.TwoFoldersReachable | server/taskpps/db/repository.py:631-681 | the table of these two examples comes from three saves |
| Definitions.DeletedFileIsInTheWay | server/taskpps/db/repository.py:725-783 | deleting a file and renaming another to its name, which the endpoints accept, leaves two rows for one path |
| Substitution.ReferenceAt | server/taskpps/loaders/pipeline_loader.py:15 | finds a reference exactly when the string starts with one: an opening, a non-empty name without closing brace, and a closing brace |
| Substitution.Substitute | server/taskpps/loaders/pipeline_loader.py:186-194 | stopping early changes nothing: the result is that of ten passes |
| Substitution.RoundOfRender | server/taskpps/loaders/pipeline_loader.py:190 | one pass of the scanner over a rendered template is the rendering of replacing each reference token by its value, whatever text without a reference the template ends in |
| Substitution.RoundShortensChains | server/taskpps/loaders/pipeline_loader.py:189-193 | a pass shortens every chain of references by exactly one |
| Substitution.RoundsResolveIff | server/taskpps/loaders/pipeline_loader.py:186-194 | so many passes leave no resolvable reference if and only if the template starts no longer chain of references; then substituting the result again changes nothing |
| Substitution.SelfReferenceStays | server/taskpps/loaders/pipeline_loader.py:186-194 | a variable that refers to itself is never resolved, however many passes there are |
| Substitution.ValueCompletesOpening | server/taskpps/loaders/pipeline_loader.py:189-190 | a value that is a lone dollar sign completes the opening in the text behind its reference: the pass makes a reference that neither the template nor any value contains |
| Substitution.RankBoundsChains | server/taskpps/loaders/pipeline_loader.py:189 | if values refer only to names of strictly lower rank, and the template to names below a bound, no chain is longer than the bound |
| Substitution.SubstituteTemplate | server/taskpps/services/pipeline_service.py:1232-1257 | the loop on a template: the result, when it is free of resolvable references, and that it is then a fixed point; lines 1251-1257 run the same loop with a longer opening |
| Substitution.PrefixIsOptional | server/taskpps/loaders/pipeline_loader.py:164-183 | a variable resolves alike with and without the env. prefix, from whichever source |
| Substitution.FirstSourceDecides | server/taskpps/loaders/pipeline_loader.py:164-183 | the pipeline's own variables win over the settings, these over the process environment; a name in none of them stays unresolved |
| Substitution.ElsewhereDecides | server/taskpps/loaders/pipeline_loader.py:120-163 | references to credentials and agents are never looked up among the variables |
| LogReader.LastNewline | server/taskpps/api/runs.py:115 | the last newline's position, or none if there is none |
| LogReader.ReadLogLines | server/taskpps/api/runs.py:98-129 | the lines of exactly the bytes between the two positions; without partial reading the new position is just behind the last newline, with it at the end |
| LogReader.WrittenIsReadBack | server/taskpps/api/runs.py:98-129 | lines written with line feeds, each behind any number of carriage returns, are read back exactly |
| LogReader.UnfinishedIsRead | server/taskpps/api/runs.py:112-126 | a last line without line feed is read as a line of its own, its carriage returns stripped |
| LogReader.LinesSplitIff | server/taskpps/api/runs.py:120-127 | cutting content between two reads gives the same lines if and only if one part is empty or the cut is at a line end |
| LogReader.LateByteSplitsALine | server/taskpps/api/runs.py:112-126 | a byte that arrives after a partial read makes two lines of one |
| LogReader.Tail | server/taskpps/api/runs.py:302-337 | polling complete lines of a growing file and then reading the rest emits exactly the lines of one read of the final content: none split, lost or repeated |
| Completer.ParseToken | execution_agent/agent/completer.go:101-145 | for every line and cursor the token starts at the one place just after the last blank that the quote and escape automaton leaves unquoted and unescaped, its quotes are stripped, and it stands in command position exactly when only blanks precede it |
| Completer.TrimRight | execution_agent/agent/completer.go:142 | cuts off exactly the trailing blanks |
| Completer.EscapedWordIsToken | execution_agent/agent/completer.go:107-139 | after any closed line and a blank, a word with every character escaped is the token, unchanged, for any word |
| Completer.QuotedWordIsToken | execution_agent/agent/completer.go:107-139 | after any closed line and a blank, an opening quote and a word without that quote or backslash give the word as the token, blanks included |
| Completer.ClosedQuoteIsToken | execution_agent/agent/completer.go:107-139 | after any closed line and a blank, a word between two equal quotes is the token, without the quotes, and leaves the line closed |
| Completer.EscapedQuotedIsToken | execution_agent/agent/completer.go:107-139 | inside an opening quote an escaped word, quotes and blanks included, does not start another token |
| Completer.PlainWordIsToken | execution_agent/agent/completer.go:107-139 | after any closed line and a blank, a word without blanks, quotes and backslashes is the token, unchanged |

## Left out

- Names are assumed distinct within a subpipeline and among subpipelines, as `server/taskpps/schemas/pipeline.py` lines 112-117 and 166-176 enforce; qualified names are assumed distinct too, which dotless subpipeline names imply. The library sort is modelled as stable insertion.
- `SubRun` uses task names without the subpipeline prefix, which is one to one within a subpipeline; the branches for a task or subpipeline that is not found are not modelled, since levels only hold declared names. Task objects are not shared between subpipelines.
- Retries within a task, `when` conditions, per-step timeouts, post phases, artifacts, logs and database writes during a run; a task's outcome is whatever the runner sees of it.
- Exceptions outside the Exception hierarchy: the event loop re-raises those that end the process, and a cancelled task comes back as a result, so the branch that would book any other as completed (`server/taskpps/engine/runner.py`, lines 703-704 and 738) is not modelled.
- The status written when the run itself is cancelled from outside (`server/taskpps/engine/runner.py`, lines 461-487), and the RUNNING write that can follow an early cancellation.
- Exceptions from record updates during a retry, which end it early.
- Commands.AgentManager.HandleConnection: the handshake and the replacement are one step, so the moment in which the old socket closes and the agent has no record (`server/taskpps/services/agent_manager.py`, lines 270-278) is not modelled.
- Output callbacks, completion requests, heartbeats and real time: a timeout is a step that may happen whenever a future waits, and the grace timer may fire at any moment, so no full grace period is claimed.
- The agent's cancellation of a process (a process may exit at any moment) and its queue for resending results; messages may be lost, repeated and reordered freely.
- Slots.AgentExecutor.Execute: runs without other executors in between, except for its own cleanup; interleavings are the subject of `Step`. The order in which waiters are served is arbitrary.
- The definition table's commits succeed, the time stamp is a logical clock, a prefix match is exact, ids are a counter, and ties in the query are broken by position; name and raw content are not stored.
- Substitution.RoundOfRender: no two texts of the template and the values complete an opening across their boundary, so that replacing a reference never creates a new one; references to credentials and agents come from a function given from outside; the descent into dictionaries and lists is not modelled.
- The log is read as bytes with decoding the identity; the event stream around it is not modelled.
- `Completer` works on characters instead of bytes.
- YAML parsing, HTTP, WebSocket and SSH transport, authentication, credentials, plugins, cron, translations, the web interface and the command line.
