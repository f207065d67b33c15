# A verified model of the dxrk orchestrator's core

This project models the parts of dxrk, a local agent orchestrator written in Python,
whose correctness is not visible from reading one function, and proves what they promise.
`dafny verify dfyconfig.toml` checks everything.

What is modelled, module by module:

- **Planning.** `TopologicalSort`, `SoftOrdering` and `Resolver` model the dependency
  planner: a recursive closure over a possibly cyclic graph that fills one shared table,
  Kahn's algorithm with a sorted ready list, and the pass that moves components up.
- **Tasks.** `BinaryHeap`, `ArrivalList` and `TaskQueue` model the priority queue as a
  heap array and refine it to a list in order of arrival, and `QueueRuns` says what its runs
  hand out; `WorkerPool` is the pool of threads as a state machine, one action per
  lock-protected step.
- **Pipeline.** `Pipeline` models stages, compensation in reverse order, and the external
  state the steps act on.
- **Messages.** `MessageRouting` is the protocol of nodes with bounded inboxes and one
  shared table of pending requests, as a state machine over registering, enqueuing,
  handling, delivering, receiving and timing out. `Consensus` is the majority vote.
- **Text.** `Markers`, `MarkedDocs` and `AgentNames` model the injection of named blocks
  into a prompt file; `ArgParser`, `ArgRendering`, `ArgOutcomes`, `ArgFailures` and
  `CommandLookup` the command line;
  `Escaping` the quoting and subtitle escaping; `Subtitles` captions and their timing;
  `Trajectory` the mini SWE runner's loop and its conversion; `LineBlocks`, `GitDiff` and
  `Worktrees` the parsers of git output.
- **Containers.** `HookManager` is the hook table, `Scratchpad` and `Coordinator` the shared
  scratchpad, the teams and their workers, `Retention` and `Checksum` the pruning and the
  checksum of backups.
- `Wrappers`, `Ordering`, `Sequences` and `Words` hold optional values, Python's order on
  strings, its stable sort, list comprehensions, and cutting texts into words.

Each method that loops or updates state is proved against a specification function or a
property; the lemmas beside it say what the source promises about that specification.

Where the code does not meet what its documentation or name suggests, the model keeps the
code and says so:

- `Queue.remove` filters the heap list without restoring the heap
  (`TaskQueue.RemoveLosesTheOrder` on the next pop, `TaskQueue.RemoveLosesALaterPop` one pop
  later). `BinaryHeap.FilterIsHeapIff` says exactly when a heap is left, and `TaskQueue.Run`
  that runs in which every removal leaves one hand out the right tasks.
- Two soft pairs can undo each other (`SoftOrdering.DifferentFirstsCanConflict`);
  `SoftOrdering.PairHoldsIff` says exactly which pairs hold at the end. A soft pair can
  break a dependency (`Resolver.PersonaComesTooEarly`); `SoftOrdering.PassKeepsIff` says exactly
  when a pass keeps them all, and `Resolver.Resolve` when a plan does.
- A block whose end marker is missing is replaced with the wrong offset, so the text after it is
  kept only when the block begins the file (`Markers.MissingEndKeepsTextIffFirst`).
- The search for a marker does not know blocks, so a begin marker inside another agent's body
  is taken for the agent's own (`MarkedDocs.InnerBlockIsReplaced`), and a bare one can delete
  the text up to the next block's end (`MarkedDocs.BareMarkerSwallows`). A block survives the
  others' injections exactly when its body has no begin marker of theirs
  (`MarkedDocs.BlockSurvivesIff`); all runs of injections do what they should exactly when,
  besides, no body has its own end marker (`MarkedDocs.RunsUpdateIff`).
- Rollback finds steps by id, so two steps that share an id are not undone
  (`Pipeline.SharedIdIsNotUndone`). Rollback can be relied on exactly for the lists of
  ids that repeat none (`Pipeline.UndoneIffUnrepeated`).
- A message id that is used twice lets one caller receive the other's answer, while the
  first call waits and also after it has timed out, as long as its request is in the inbox
  (`MessageRouting.SharedIdCrossesReplies`, and `MessageRouting.AnswerGoesToClaimer` for any
  state); the comment at dxrk/a2a.py:783-786 knows this. Using an id again does no harm when
  no send under way and no message at a node has it (`MessageRouting.SendReturnsItsAnswer`).
- A pool without workers is stopped with its queue still full (`WorkerPool.NoWorkersDrainNothing`);
  one with a worker never is (`WorkerPool.AlwaysDrainsIff`).
- A task that is queued twice can be handled by two workers at once (`WorkerPool.TwoHandleOneTask`),
  and then the last to record its verdict decides (`WorkerPool.LastToRecordDecides`). A worker that is past its check
  overwrites a cancellation, so a cancellation is final exactly when none is
  (`WorkerPool.CancelHoldsIff`).
- The hunk statistics of a diff are always zero, because a part of a line that was split
  at spaces cannot be split at a space again (`GitDiff.HunkStatsOfPart`).
- A removed line whose text begins with two hyphens, or an added one whose text begins with
  two pluses, is not counted (`GitDiff.RemovedDashesAreLost`, `GitDiff.AddedPlusesAreLost`); the counts are
  right exactly when there is no such line (`GitDiff.RemovedAreCountedIff`, `GitDiff.AddedAreCountedIff`). With a
  blank behind the signs the line is taken for a file name line and is missing from the
  content as well (`GitDiff.ContentIsWholeIff`).
- The scratchpad drops the entry with the smallest time, which is not the first entry when the
  clock steps back (`Scratchpad.ClockStepBackDropsNewer`). A write drops the head exactly when
  the head is the oldest (`Scratchpad.WriteRefinesPutIff`, over runs `Scratchpad.RunAgreesIff`).
- Pruning removes the directory that a manifest names, not the one it was found in, so a
  pinned backup is lost when a doomed manifest names its directory, for example a copy from before
  the pin (`Retention.CopyDeletesPinned`). `Retention.LostIff` says exactly which
  listed directories are lost, and `Retention.ContentIsLeftIff` when everything below one is left. The laws of
  retention hold when the doomed manifests name their own directories, as the program writes them
  (`Retention.PruneRemovesDoomed`).
- A failing checksum names the first path that cannot be read, so its error, unlike its
  value, depends on the order of the paths (`Checksum.ErrorDependsOnOrder`), except exactly
  when all bad paths are one and the same (`Checksum.SameForAllOrdersIff`).
- A file name with a blank in it is cut off in the path read from a diff header
  (`GitDiff.PathIsRightIff`).

## Model

| member | source | states |
|---|---|---|
| `TopologicalSort.Sort` | dxrk/planner.py:140-171 | fails exactly when the dependencies have a cycle; otherwise returns every key and dependency once, each after all its dependencies, in the lexicographically least such order |
| `TopologicalSort.BuildTables` | dxrk/planner.py:143-154 | the in-degrees count listed dependencies with repetitions, the child lists mirror them entry by entry, and the nodes are all keys and dependencies |
| `TopologicalSort.RecordDependencies` | dxrk/planner.py:147-154 | one component's loop extends the tables of the graph without its entry to those of the graph with it |
| `TopologicalSort.SortedList` | dxrk/planner.py:156 | the ready list is sorted and holds exactly the given nodes, each once |
| `TopologicalSort.ReleaseChildren` | dxrk/planner.py:162-166 | after one node's children, the in-degrees and the ready list are right for the nodes ordered so far plus that node |
| `TopologicalSort.ResortHolds` | dxrk/planner.py:165-166 | appending a released child and sorting again keeps the ready list sorted and exact |
| `TopologicalSort.HeadCanBeEmitted` | dxrk/planner.py:160-161 | the head of the ready list is the least node whose dependencies are all placed |
| `TopologicalSort.GreedyIsOrdered` | dxrk/planner.py:159-171 | an order built by always taking the least ready node repeats nothing and respects every dependency |
| `TopologicalSort.CycleIsMissed` | dxrk/planner.py:168-169 | no node on a cycle is ever placed |
| `TopologicalSort.StuckMeansCycle` | dxrk/planner.py:168-169 | when nodes are left over and none is ready, the graph has a cycle |
| `TopologicalSort.GreedyIsLeast` | dxrk/planner.py:156-171 | the order is lexicographically at most any other topological order |
| `TopologicalSort.LeastOrderIsDetermined` | dxrk/planner.py:140-171 | graphs with the same nodes and edges have the same result, so neither the order of the dictionary nor repeated dependencies matter |
| `TopologicalSort.FinishedIsLeast` | dxrk/planner.py:168-171 | when all nodes are placed there is no cycle and the order is the least one |
| `TopologicalSort.ShortMeansCycle` | dxrk/planner.py:168-169 | a result that misses nodes means a cycle |
| `TopologicalSort.NeighboursAreByName` | dxrk/planner.py:156-171 | in the least order a component stands right before one with a smaller name only when that one depends on it |
| `Ordering.LessIsComesFirst` | dxrk/planner.py:156 | a string is less than another exactly when it is a proper beginning of it, or smaller where the two first differ |
| `SoftOrdering.IndexOf` | dxrk/planner.py:180-184 | the position of the first occurrence, or -1 exactly when there is none |
| `SoftOrdering.FindIndex` | dxrk/planner.py:180-184 | the loop finds that position |
| `SoftOrdering.ApplySoftOrdering` | dxrk/planner.py:174-196 | the slice assignments amount to moving one element up per pair, from left to right |
| `SoftOrdering.SoftenPermutes` | dxrk/planner.py:186-194 | one pair permutes the list |
| `SoftOrdering.PrecedesAfterMove` | dxrk/planner.py:192-194 | which of two elements comes first after a move, in terms of the list before |
| `SoftOrdering.SoftenOne` | dxrk/planner.py:186-194 | one pair moves only its first element, only towards the front, and then holds |
| `SoftOrdering.SoftenSharedFirst` | dxrk/planner.py:186-196 | pairs with one shared first element permute the list and move only that element, only towards the front |
| `SoftOrdering.SoftenSatisfies` | dxrk/planner.py:186-196 | with one shared first element every pair holds at the end |
| `SoftOrdering.DifferentFirstsCanConflict` | dxrk/planner.py:186-196 | with different first elements a later pair can undo an earlier one: a concrete list |
| `SoftOrdering.SoftenUndoesIff` | dxrk/planner.py:186-194 | exactly when one pair undoes another that holds: its first element is the other's second, and its second element is there and not behind the other's first |
| `SoftOrdering.SoftenRestoresIff` | dxrk/planner.py:186-194 | exactly when one pair makes another hold that does not |
| `SoftOrdering.PairHoldsIff` | dxrk/planner.py:186-196 | exactly when a pair holds at the end of the pass, for any pairs: every later pair that undid it was followed by one that restored it |
| `SoftOrdering.NothingUndoes` | dxrk/planner.py:186-196 | a pair holds at the end when no later pair has its second element first |
| `SoftOrdering.SoftenKeepsDependencies` | dxrk/planner.py:174-196 | dependencies survive when the shared first element has none itself |
| `SoftOrdering.MoveKeepsDependencies` | dxrk/planner.py:186-194 | a move keeps all dependencies exactly when every dependency of the moved element already stood before the other one |
| `SoftOrdering.PairKeepsDependencies` | dxrk/planner.py:186-194 | the same condition for any pair, whether or not it moves anything |
| `SoftOrdering.SharedPassKeepsIff` | dxrk/planner.py:174-196 | exactly when a whole pass keeps a topological order, for pairs that share their first element: for each pair in the list, every dependency of the first stands before the second in the list as it was |
| `SoftOrdering.PassKeepsIff` | dxrk/planner.py:174-196 | the same for any pairs: every dependency that a pair undid was restored by a later one |
| `Resolver.DependencyTable.Record` | dxrk/planner.py:242-243 | adds the component with its own dependencies as the last key |
| `Resolver.DependencyTable.Expand` | dxrk/planner.py:235-247 | ends on cyclic graphs too; adds only components reached from the argument, leaves nothing it added without its dependencies, and fails only on a reached component outside the graph |
| `Resolver.TableIsClosure` | dxrk/planner.py:211-217 | a table that is closed under dependencies and holds only reached components is the reachability closure of the selection |
| `Resolver.CollectClosure` | dxrk/planner.py:211-215 | fails exactly when the selection or something it reaches is outside the graph, and then names the first selected component that leaves the graph, or a missing dependency of something it reaches; otherwise the table is the closure |
| `Resolver.CyclesOfTable` | dxrk/planner.py:217 | the collected table has a cycle exactly when the graph has one through the closure |
| `Resolver.SoftPlan` | dxrk/planner.py:217-218 | softening with the built-in pairs keeps the components and satisfies both pairs; it keeps all dependencies exactly when every dependency of PERSONA stands before the other component of each pair in the sorted list |
| `Resolver.PlanIsKeptExactly` | dxrk/planner.py:217-218 | the same for every plan, over the least order of its closure |
| `Resolver.SoftBeatsHard` | dxrk/planner.py:217-218 | when PERSONA depends on the memory or the SDD component, no plan with it keeps the dependencies |
| `Resolver.PersonaComesTooEarly` | dxrk/planner.py:217-218 | a graph that resolves, and whose every plan puts PERSONA in front of the component it depends on |
| `Resolver.NotSelected` | dxrk/planner.py:220-222 | the added dependencies are exactly the components that were not selected |
| `Resolver.CollectAdded` | dxrk/planner.py:220-222 | the loop collects them in plan order |
| `Resolver.DivideAgents` | dxrk/planner.py:226-231 | the agents of the selection, in order, by whether they are supported |
| `Resolver.Resolve` | dxrk/planner.py:206-233 | which errors occur, exactly, and about which selected component; otherwise the plan is the closure of the selection, each component once, in the least order after softening, with the added dependencies and the agents, and when it keeps all dependencies, exactly |
| `Resolver.SameSelectionSamePlan` | dxrk/planner.py:206-224 | selections with the same closure get the same plan, in whatever order they were made |
| `Resolver.MvpAlwaysResolves` | dxrk/planner.py:90-110 | every selection from the built-in graph resolves, and PERSONA has no dependency there |
| `Resolver.BuiltInNames` | dxrk/planner.py:100-110 | the built-in graph has exactly these eight components, by name |
| `Resolver.MvpClosure` | dxrk/planner.py:100-110 | a selection of built-in components needs exactly itself, sdd for skills, and DXRK_MEMORY for sdd or skills |
| `Resolver.MvpPlan` | dxrk/planner.py:90-110 | for every such selection the plan holds exactly these components, with DXRK_MEMORY before sdd and sdd before skills, and added are those not selected |
| `BinaryHeap.RootIsFirst` | dxrk/task.py:229 | no entry of a heap comes before its root |
| `BinaryHeap.RisenIsHeap` | dxrk/task.py:198 | an entry that rises past every parent it comes before leaves the part of the heap from start on in order |
| `BinaryHeap.SunkIsHeap` | dxrk/task.py:229 | sinking an entry to a leaf along the smaller children and letting it rise again restores the heap below it |
| `BinaryHeap.Rise` | dxrk/task.py:198 | the loop moves the entry up |
| `BinaryHeap.Sink` | dxrk/task.py:229 | the loop moves the hole down to a leaf and the entry up from there |
| `BinaryHeap.PushedConserves` | dxrk/task.py:198 | a push adds exactly the entry |
| `BinaryHeap.PushedIsHeap` | dxrk/task.py:198 | a push keeps a heap |
| `BinaryHeap.HeapPush` | dxrk/task.py:198 | pushes as heapq does, step by step |
| `BinaryHeap.BuiltByPushes` | dxrk/task.py:198 | every heap is what pushing its entries in turn builds, so all heaps can occur |
| `BinaryHeap.PoppedConserves` | dxrk/task.py:229 | a pop removes exactly the root |
| `BinaryHeap.PoppedIsHeap` | dxrk/task.py:229 | a pop keeps a heap |
| `BinaryHeap.HeapPop` | dxrk/task.py:229 | pops as heapq does, step by step |
| `BinaryHeap.WithoutMultiplicity` | dxrk/task.py:216 | the filter drops exactly the entries with that id and keeps every other one as often as before |
| `BinaryHeap.FilterKeepsRoot` | dxrk/task.py:216 | when another task is removed, the very next pop is still right |
| `BinaryHeap.FilterRootExact` | dxrk/task.py:216 | when the root alone is removed, the new first entry is the right next task exactly when the second child does not come before it |
| `BinaryHeap.FilterIsHeapIff` | dxrk/task.py:216 | exactly when the filter leaves a heap, for every list and every id, repeated or not: no kept entry comes before the one that slides into its parent's place |
| `ArrivalList.Best` | dxrk/task.py:219-220 | the first of the tasks with the highest priority |
| `ArrivalList.FirstIsBest` | dxrk/task.py:198 | the entry that is first by negated priority and sequence number is the best task, the oldest among equals |
| `ArrivalList.HeapRootIsBest` | dxrk/task.py:229 | the root of the heap is the best task of the arrivals |
| `ArrivalList.PushHolds` | dxrk/task.py:193-199 | pushing appends to the arrivals |
| `ArrivalList.TakeHolds` | dxrk/task.py:229 | popping removes one arrival |
| `ArrivalList.RemoveHolds` | dxrk/task.py:213-217 | the filter drops the arrivals with that id, and the registry stays in step |
| `TaskQueue.Queue.Push` | dxrk/task.py:193-200 | appends the task, or does nothing after close |
| `TaskQueue.Queue.TakeFirst` | dxrk/task.py:229 | takes the root; on a heap that is the best pending task |
| `TaskQueue.Queue.Pop` | dxrk/task.py:219-229 | tells exactly when the program would block, which is on the open empty queue, and changes nothing then; None exactly when nothing is pending; on a heap the best pending task otherwise |
| `TaskQueue.Queue.TryPop` | dxrk/task.py:231-236 | the same, and None on every closed queue |
| `TaskQueue.Queue.Remove` | dxrk/task.py:210-217 | drops exactly the tasks with that id and tells whether the id was known; the list is filtered as it is, and is a heap afterwards exactly when the kept entries slide in order |
| `TaskQueue.Queue.Close` | dxrk/task.py:238-242 | closes the queue and changes nothing else |
| `TaskQueue.Perform` | dxrk/task.py:193-242 | every operation of the queue, with the removal as written or repaired, is the step of the list model |
| `TaskQueue.StepRefines` | dxrk/task.py:193-242 | on a heap, every operation but a removal that breaks the heap does what the plain list does |
| `TaskQueue.RunRefines` | dxrk/task.py:182-242 | a run hands out what the plain list hands out when every removal leaves a heap, or is repaired |
| `TaskQueue.Run` | dxrk/task.py:182-242 | over every sequence of operations, with the removal as written, the tasks handed out are those of the stable priority list as long as every removal leaves a heap; with the repaired removal always |
| `TaskQueue.RemoveLosesTheOrder` | dxrk/task.py:216 | the removal as written can leave a lower priority in front: a concrete heap |
| `TaskQueue.RemoveLosesALaterPop` | dxrk/task.py:216 | removing a task that is not first can also go wrong, one pop later: a concrete heap of six |
| `QueueRuns.QueueSorts` | dxrk/task.py:193-229 | pushing any tasks and popping as often hands them out in the stable order of their priorities, highest first |
| `QueueRuns.DrainIsSorted` | dxrk/task.py:219-229 | so do pops on any list, closed or not, and further pops get nothing |
| `QueueRuns.NothingIsLost` | dxrk/task.py:193-242 | over every run each task pushed before the close is handed out, dropped by a removal, or still pending, exactly as often as it was pushed |
| `QueueRuns.TriesFailAfterClose` | dxrk/task.py:231-236 | after a close no try_pop gets a task |
| `QueueRuns.OpenTriesArePops` | dxrk/task.py:231-236 | before that, try_pop hands out what pop does |
| `QueueRuns.RemovedIsNotHanded` | dxrk/task.py:210-217 | after a removal no task with that id is handed out unless it is pushed again |
| `WorkerPool.InitHolds` | dxrk/task.py:265-293 | the invariant holds when the workers have started |
| `WorkerPool.OutsideStepKeepsInv` | dxrk/task.py:131-138 | submitting, cancelling, removing, try_pop and close keep the invariant, between any two steps of the workers |
| `WorkerPool.WorkerStepAccounts` | dxrk/task.py:315-348 | no worker step loses a task: it is queued, held by a worker, withdrawn or settled |
| `WorkerPool.WorkerStepCounts` | dxrk/task.py:326-348 | the active counter is the number of workers between counting in and counting out |
| `WorkerPool.WorkerStepDrains` | dxrk/task.py:224-229 | a worker leaves only when the queue is closed and empty |
| `WorkerPool.WorkerStepKeepsInv` | dxrk/task.py:315-348 | every step of a worker keeps the invariant |
| `WorkerPool.RunKeepsInv` | dxrk/task.py:262-348 | the invariant holds in every state of every interleaving |
| `WorkerPool.StopDrains` | dxrk/task.py:295-300 | when all workers, at least one, have been joined, the queue is empty, nothing is active, and every accepted task that nobody withdrew is completed, failed or cancelled; without a handler only cancelled tasks are settled |
| `WorkerPool.NoWorkersDrainNothing` | dxrk/task.py:283-300 | with no workers the joined pool can keep a task in its queue |
| `WorkerPool.AlwaysDrainsIff` | dxrk/task.py:283-300 | all runs of a pool end with an empty queue exactly when it has a worker |
| `WorkerPool.WorkerStepConsumesWork` | dxrk/task.py:315-348 | every worker step uses up work |
| `WorkerPool.OutsideStepAddsNoWork` | dxrk/task.py:193-196 | after close nobody adds work |
| `WorkerPool.ClosedRunIsShort` | dxrk/task.py:295-300 | after close the workers take at most as many steps as there was work, however they interleave |
| `WorkerPool.ClosedPoolCanMove` | dxrk/task.py:219-229 | after close no worker that has not exited is stuck |
| `WorkerPool.StatusIsLastWritten` | dxrk/task.py:112-138 | over every run a task's status is what the last step that wrote it wrote: a first submission, a start, a cancellation in time, or the verdict of a handler |
| `WorkerPool.UncancelledEndsAsHandled` | dxrk/task.py:315-348 | in a drained pool a task that was never cancelled is completed exactly when the last verdict recorded for it brought no error, and failed exactly when it brought one |
| `WorkerPool.HandledOnceDecides` | dxrk/task.py:315-348 | when the task was handled once, that is the verdict of its one handling |
| `WorkerPool.TwoHandleOneTask` | dxrk/task.py:193-200 | a task that was submitted twice can be in the hands of two workers: a run of every pool with two workers and a handler |
| `WorkerPool.LastToRecordDecides` | dxrk/task.py:331-343 | then the one that records its verdict last decides, whoever came first, and whatever the verdicts |
| `WorkerPool.CancelledIsSkipped` | dxrk/task.py:322-323 | a worker that reads a cancelled status goes back for another task |
| `WorkerPool.HandleNeedsPop` | dxrk/task.py:315-331 | and handles nothing before it pops again |
| `WorkerPool.ReadIsHandled` | dxrk/task.py:322-331 | a worker that reads any other status handles the task before it does anything else |
| `WorkerPool.CancelHoldsIff` | dxrk/task.py:131-138 | exactly when a cancellation is final in every continuation, with no handling of the task: no worker is past its check with it |
| `WorkerPool.CloseLasts` | dxrk/task.py:193-242 | from a close on, pushes change nothing and try_pop takes nothing |
| `WorkerPool.StaysOut` | dxrk/task.py:210-217 | a task that was taken out of the queue stays out until it is submitted again, and no worker handles it |
| `WorkerPool.AcceptedIsQueuedOrTaken` | dxrk/task.py:193-236 | in every run, each time a task was accepted it is queued still or has left the queue once: popped, handed out by try_pop, or removed |
| `Pipeline.Orchestrator.RunStage` | dxrk/pipeline.py:186-241 | the loop leaves the state and the results of running the steps in order under the policy |
| `Pipeline.Orchestrator.IndexSteps` | dxrk/pipeline.py:303-305 | the last step of an id wins |
| `Pipeline.Orchestrator.ExecuteRollback` | dxrk/pipeline.py:143-171 | undoes from right to left, up to the first failure |
| `Pipeline.Orchestrator.Execute` | dxrk/pipeline.py:281-301 | indexes, prepares, applies and rolls back as the policies say |
| `Pipeline.SuccessRunsAll` | dxrk/pipeline.py:190-241 | results follow the steps; all steps have run unless the stage stopped at an error; there are no errors exactly when all succeeded |
| `Pipeline.StageErrorMeansFailure` | dxrk/pipeline.py:209-241 | a stage's error is empty exactly when it succeeded |
| `Pipeline.RollbackErrorMeansFailure` | dxrk/pipeline.py:161-171 | a rollback's error is empty exactly when it succeeded |
| `Pipeline.NoErrorMeansSuccess` | dxrk/pipeline.py:281-301 | the error is empty exactly when prepare and apply both ran all their steps with success, and a rollback happens only after a failed apply |
| `Pipeline.FailedPrepareStops` | dxrk/pipeline.py:281-287 | a failed prepare leaves the state its own steps left, no apply or rollback entry, and its own error |
| `Pipeline.WithoutRollback` | dxrk/pipeline.py:289-294 | a successful apply, or a failed one without rollback, leaves the state after apply, no rollback entry, and the error of apply |
| `Pipeline.WithRollback` | dxrk/pipeline.py:294-301 | a failed apply with rollback leaves what the rollback left; the rollback's error stands when it fails, and else that of apply |
| `Pipeline.StageRunsInOrder` | dxrk/pipeline.py:190-241 | each step runs on what the step before it left and its result says what it returned; a stopping stage ends with the first failure, and no other stage ends early |
| `Pipeline.StageErrors` | dxrk/pipeline.py:209-241 | the error of a stopping stage is that failure; any other stage joins all of them in order |
| `Pipeline.JoinSeparates` | dxrk/pipeline.py:236-241 | joined errors are separated by a semicolon and a blank |
| `Pipeline.RollbackIsStage` | dxrk/pipeline.py:143-171 | a rollback is a stopping stage whose steps are the rollbacks of the succeeded steps, latest first; its error names the failed step and what it returned |
| `Pipeline.RollbackEntries` | dxrk/pipeline.py:146-171 | the entries name the succeeded steps that can roll back, latest first; all of them when the rollback succeeds, a prefix otherwise |
| `Pipeline.RollbackEntriesEnd` | dxrk/pipeline.py:159-171 | all entries are rolled back, except that the last one is failed when the rollback fails |
| `Pipeline.IndexKeepsIds` | dxrk/pipeline.py:303-305 | an indexed step is found under its own id |
| `Pipeline.IndexFinds` | dxrk/pipeline.py:303-305 | with unique ids every step is found |
| `Pipeline.RollbackRestores` | dxrk/pipeline.py:143-171 | a successful rollback of compensating steps restores the state before the stage, under both failure policies |
| `Pipeline.FailedApplyIsUndone` | dxrk/pipeline.py:281-301 | a failed apply whose rollback succeeds leaves the external state as it was right after prepare |
| `Pipeline.SharedIdIsNotUndone` | dxrk/pipeline.py:303-305 | without unique ids it need not: a concrete plan |
| `Pipeline.RepeatedIdIsNotUndone` | dxrk/pipeline.py:303-305 | every list that repeats an id has a compensating plan whose rollback succeeds and leaves the state changed, under either policy |
| `Pipeline.UndoneIffUnrepeated` | dxrk/pipeline.py:281-305 | for every list of ids and each policy: all compensating plans with these apply ids are undone after a failed apply with a successful rollback exactly when no id is repeated |
| `MessageRouting.InitHolds` | dxrk/a2a.py:529-530 | the invariant holds while nothing is pending |
| `MessageRouting.SendStep` | dxrk/a2a.py:576-597 | every step leaves every send in order: its channel holds at most one reply, and only its own answer |
| `MessageRouting.PendingStep` | dxrk/a2a.py:583-597 | every step leaves each pending id pointing to the send that registered it |
| `MessageRouting.DeliverSend` | dxrk/a2a.py:744-752 | a delivery keeps every send in order, also those that have timed out |
| `MessageRouting.ReachesItsSend` | dxrk/a2a.py:744-752 | a reply that finds a channel finds the one of the very request it answers |
| `MessageRouting.EnqueueNode` | dxrk/a2a.py:586-589 | a request enters the inbox at most once and never overfills it |
| `MessageRouting.PostNode` | dxrk/a2a.py:652-697 | broadcasts and shared contexts never overfill an inbox |
| `MessageRouting.TakeNode` | dxrk/a2a.py:699-705 | the loop takes the oldest message, also when it waits for one while the node is stopped |
| `MessageRouting.AnswerNode` | dxrk/a2a.py:707-741 | a node answers the message it took, under that message's id |
| `MessageRouting.LogStep` | dxrk/a2a.py:722-739 | each request of a send is handled at most once |
| `MessageRouting.StepKeepsInv` | dxrk/a2a.py:537-752 | every step of every thread keeps the invariant, when message ids come back only unused: no send under way and no message at a node has them |
| `MessageRouting.RunKeepsInv` | dxrk/a2a.py:537-752 | the invariant holds after every interleaving |
| `MessageRouting.SendReturnsItsAnswer` | dxrk/a2a.py:576-597 | a message that send returns has the request's id, as section 5 of JSON-RPC 2.0 asks, and is the one answer the target's handler gave to that request, in all interleavings in which ids come back only unused |
| `MessageRouting.FreshRunIsSafe` | dxrk/a2a.py:608-690 | runs with a new id for every message are such runs |
| `MessageRouting.FreshAnswerIsOnlyOne` | dxrk/a2a.py:576-597 | with a new id for every message, the answer is the only thing ever handled under that id |
| `MessageRouting.QueuesStayBounded` | dxrk/a2a.py:550-582 | no inbox ever holds more than 100 messages and no reply channel more than one |
| `MessageRouting.InboxIsQueue` | dxrk/a2a.py:550-589 | over every run, with whatever ids, the messages a node accepted are those its loop has taken, in the order of acceptance, followed by its inbox |
| `MessageRouting.AnswersInOrder` | dxrk/a2a.py:699-741 | what a node has handled is what its loop took, in that order, but for messages of other kinds |
| `MessageRouting.OneAtATime` | dxrk/a2a.py:699-741 | a node finishes each message, by delivering its reply or ignoring it, before it takes the next |
| `MessageRouting.EntriesWereAnswered` | dxrk/a2a.py:722-739 | every logged answer is what the node's handler returned for that request, or a reply handed through |
| `MessageRouting.ReportsFullIff` | dxrk/a2a.py:586-589 | over every run a send ends with a full buffer exactly when the peer's inbox held 100 messages at its enqueue |
| `MessageRouting.GivesUpUnreached` | dxrk/a2a.py:590-597 | over every run a send times out only when no reply has reached it, and returns a message only when one has |
| `MessageRouting.PeersFollow` | dxrk/a2a.py:562-570 | a name stands for the peer that was added last under it and not removed since |
| `MessageRouting.SendGoesToPeer` | dxrk/a2a.py:576-582 | a send goes to that peer |
| `MessageRouting.DeliveryReachesOnlyItsSend` | dxrk/a2a.py:744-752 | a delivery changes at most the send that waits for that id; after a timeout it reaches nobody |
| `MessageRouting.AnswerGoesToClaimer` | dxrk/a2a.py:744-752 | in every state, whoever has registered an id can receive the answer to any request with that id that is next in an inbox, whichever node answers |
| `MessageRouting.SharedIdCrossesReplies` | dxrk/a2a.py:583-597 | for every id used twice the second send can return the other peer's answer, whether the first still waits or has timed out |
| `Consensus.CountsAddUp` | dxrk/a2a.py:901-903 | the votes for two choices never outnumber all votes |
| `Consensus.OneMajority` | dxrk/a2a.py:905-909 | at most one choice has a strict majority |
| `Consensus.OutcomeIsDetermined` | dxrk/a2a.py:897-909 | permuting or repeating options, and permuting votes, does not change the outcome |
| `Consensus.CountVotes` | dxrk/a2a.py:901-903 | the table counts the votes for every choice |
| `Consensus.ResolveConsensus` | dxrk/a2a.py:897-909 | a non-empty option is returned exactly when it is listed and holds a strict majority |
| `Consensus.ProposeConsensus` | dxrk/a2a.py:757-814 | fails exactly when no target is a peer; votes are the readable ballots, never more than resolved peers; decided exactly when a non-empty option has the majority |
| `Consensus.MajorityOutweighs` | dxrk/a2a.py:905-909 | a strict majority is more votes than all others together |
| `Consensus.BallotsAreReplies` | dxrk/a2a.py:781-803 | the readable ballots count, one by one and in order, and nothing else |
| `Consensus.ResolvedInOrder` | dxrk/a2a.py:775-776 | the targets that are peers are asked, as often and in the order they were given |
| `Markers.Find` | dxrk/agentbuilder.py:552-556 | the first occurrence from an index on, or -1 exactly when there is none |
| `Markers.ExtractedName` | dxrk/agentbuilder.py:567-572 | the name comes back out of its marker |
| `Markers.DifferentBegin` | dxrk/agentbuilder.py:486 | the marker of one name never matches at the marker of another |
| `Markers.BlockIsFound` | dxrk/agentbuilder.py:552 | the search finds the block and nothing before it |
| `Markers.EndIsFound` | dxrk/agentbuilder.py:556 | the search finds the block's own end marker |
| `Markers.InjectReplaces` | dxrk/agentbuilder.py:549-564 | re-injecting replaces exactly that block and keeps all text before and after |
| `Markers.InjectAppends` | dxrk/agentbuilder.py:508-511 | a first injection appends the block after a blank line |
| `Markers.InjectMakesBlock` | dxrk/agentbuilder.py:549-564 | whatever the content, after replacing there is a block that the next injection finds first |
| `Markers.InjectIsIdempotentIff` | dxrk/agentbuilder.py:503-511 | for every content, injecting twice is injecting once exactly when the body does not hold its own end marker |
| `Markers.MissingEndKeepsTextIffFirst` | dxrk/agentbuilder.py:556-561 | without an end marker the text after the marker line is kept exactly when the block begins the file |
| `Markers.BlockText` | dxrk/agentbuilder.py:486-511 | the text of a block, written out |
| `MarkedDocs.PromptFile.InjectReference` | dxrk/agentbuilder.py:489-517 | leaves the file alone without a body to inject, and otherwise replaces the agent's block or appends it |
| `MarkedDocs.FindInDoc` | dxrk/agentbuilder.py:506-552 | in a document of several agents' blocks the search finds the right block and skips the others |
| `MarkedDocs.SplitAtBlock` | dxrk/agentbuilder.py:552-564 | cutting at the markers cuts the document at that block |
| `MarkedDocs.InjectUpdates` | dxrk/agentbuilder.py:506-511 | injecting into the text is updating the document |
| `MarkedDocs.ReplaceBlocks` | dxrk/agentbuilder.py:549-564 | replacing changes one body and no other block, and keeps the text between the blocks |
| `MarkedDocs.AppendBlocks` | dxrk/agentbuilder.py:508-511 | appending adds one block and keeps all others |
| `MarkedDocs.InjectionsKeepAllBlocks` | dxrk/agentbuilder.py:489-517 | after any run of injections every agent's block holds the body it injected last, when no body misleads the search |
| `MarkedDocs.RunsUpdateIff` | dxrk/agentbuilder.py:489-517 | exactly when that is so for all runs, for any agents and bodies and any file without their markers: no body holds its own end marker or the begin marker of another of the agents |
| `MarkedDocs.BlockSurvivesIff` | dxrk/agentbuilder.py:549-564 | exactly when a block survives whatever another agent injects: its body does not hold the begin marker of the other |
| `MarkedDocs.InnerBlockIsReplaced` | dxrk/agentbuilder.py:549-564 | when the body of one agent holds a block of another, injecting for the other changes that body |
| `MarkedDocs.BareMarkerSwallows` | dxrk/agentbuilder.py:549-564 | when a body ends with a bare begin marker of an agent whose block follows, injecting for that agent deletes everything in between |
| `AgentNames.TitleToName` | dxrk/agentbuilder.py:288-299 | the name is the lowered title's runs of letters and digits, joined by single hyphens |
| `AgentNames.NameKeepsWords` | dxrk/agentbuilder.py:288-299 | the words can be read back from the name |
| `Words.WordsInvertJoin` | dxrk/agentbuilder.py:288-299 | cutting joined words gives the words back, whenever the separator is in no word |
| `AgentNames.NameIsStable` | dxrk/agentbuilder.py:288-299 | deriving a name from a name changes nothing |
| `AgentNames.KeptCharacters` | dxrk/agentbuilder.py:288-299 | the characters that a name keeps, written out |
| `ArgParser.ParseLong` | dxrk/commands/registry.py:126-152 | one long flag: its error, or the table after it and whether it used the next argument |
| `ArgParser.ParseCluster` | dxrk/commands/registry.py:167-185 | the loop over a cluster of short flags does what reading it letter by letter does |
| `ArgParser.ParseShort` | dxrk/commands/registry.py:153-185 | the same for a whole short token, with the value form |
| `ArgParser.ParseArgv` | dxrk/commands/registry.py:116-189 | the index loop parses token by token, with the first error |
| `ArgParser.AfterToken` | dxrk/commands/registry.py:121-188 | one token moves the loop on by what it uses and never past the end |
| `ArgOutcomes.EightWords` | dxrk/commands/registry.py:139-145 | exactly eight words are read as yes or no, in any mix of cases, and which means which |
| `ArgOutcomes.PlainIsKept` | dxrk/commands/registry.py:187 | an argument that is neither `--` nor a flag is kept in front of the arguments of the rest |
| `ArgOutcomes.PlainArgumentsAreKept` | dxrk/commands/registry.py:187-189 | arguments without flags come back as they are |
| `ArgOutcomes.DashesEndFlags` | dxrk/commands/registry.py:123-125 | nothing behind `--` is a flag |
| `ArgOutcomes.UnknownLongFails` | dxrk/commands/registry.py:132-134 | a long flag outside the table is the error |
| `ArgOutcomes.LongSwitch` | dxrk/commands/registry.py:135-145 | a long switch is on by itself and otherwise as its word says; any other word is the error |
| `ArgOutcomes.LongValue` | dxrk/commands/registry.py:146-152 | a long flag takes the value behind the equals sign or the next argument; without one it is the error |
| `ArgOutcomes.ShortSwitches` | dxrk/commands/registry.py:167-175 | several switches in one argument are all on |
| `ArgOutcomes.ShortUnknown` | dxrk/commands/registry.py:171-172 | a letter outside the table, behind any switches, is the error |
| `ArgOutcomes.ShortValue` | dxrk/commands/registry.py:176-185 | a flag with a value, behind any switches, takes the rest of the argument or the next one; without one it is the error |
| `ArgOutcomes.ShortEquals` | dxrk/commands/registry.py:155-163 | the form with an equals sign: unknown letters and switches are errors, and otherwise the value is what follows |
| `ArgOutcomes.EveryCluster` | dxrk/commands/registry.py:167-185 | every cluster of letters is switches, alone or in front of an unknown letter or a flag with a value |
| `ArgOutcomes.EveryArgument` | dxrk/commands/registry.py:121-187 | every argument is plain, `--`, a long flag, or one of the two short forms |
| `ArgFailures.ParseFailsIff` | dxrk/commands/registry.py:116-189 | exactly when parsing fails: some argument, read as a flag, names no flag, lacks its value, has a word that is none of the eight, or gives a short switch a value |
| `ArgFailures.ArgumentDoes` | dxrk/commands/registry.py:121-188 | and what one argument does otherwise: it uses two arguments exactly when it is a flag with a value that is not in the same argument |
| `ArgRendering.ParseInvertsRender` | dxrk/commands/registry.py:116-189 | parsing rendered flags and positionals gives them back |
| `ArgRendering.ParseFits` | dxrk/commands/registry.py:116-189 | every parsed flag is in the table, with a value of its kind |
| `ArgRendering.RenderedParseIsStable` | dxrk/commands/registry.py:116-189 | every successful parse re-renders, in any order of its flags, to arguments that parse to the same result |
| `ArgRendering.LongSpelling` | dxrk/commands/registry.py:126-152 | `--name value` and `--name=value` mean the same |
| `ArgRendering.ShortSpelling` | dxrk/commands/registry.py:153-185 | `-s value`, `-s=value` and `-svalue` mean the same where they are legal |
| `ArgRendering.SpellingsAgree` | dxrk/commands/registry.py:126-185 | all five spellings parse alike in front of any further arguments |
| `CommandLookup.Lookup` | dxrk/commands/registry.py:234-252 | picks the longest prefix that spells a registered name; unknown exactly when no prefix spells a registered non-empty name |
| `CommandLookup.SpellsSomething` | dxrk/commands/registry.py:238 | a name of two or more words is not empty |
| `CommandLookup.SpellJoins` | dxrk/commands/registry.py:238 | a name is its words with single blanks between them |
| `Escaping.QuoteStr` | dxrk/commands/registry.py:23-34 | the loop writes the quoted form of the string |
| `Escaping.UnquoteInvertsQuote` | dxrk/commands/registry.py:23-34 | a decoder that rejects bare quotes and control characters gives the string back |
| `Escaping.QuoteHasNoControls` | dxrk/commands/registry.py:29-30 | no control character is left raw |
| `Escaping.QuoteIsInjective` | dxrk/commands/registry.py:23-34 | different strings are quoted differently |
| `Escaping.QuotedCharacters` | dxrk/commands/registry.py:23-34 | how the quoted form writes the characters it changes |
| `Escaping.QuotedOtherwise` | dxrk/commands/registry.py:29-34 | every other control character is its code in four hexadecimal digits, and every other character is itself |
| `Escaping.EscapeIsOnePass` | scripts/omni.py:994-995 | the four successive replacements are one map over the characters |
| `Escaping.UnescapeInvertsEscape` | scripts/omni.py:994-995 | a decoder gives the text back |
| `Escaping.EscapeIsInjective` | scripts/omni.py:994-995 | different texts are escaped differently |
| `Escaping.EscapedCharacters` | scripts/omni.py:994-995 | how the escape writes the characters it changes, and that it changes no other |
| `Subtitles.RoundIsNear` | scripts/omni.py:987 | rounding half to even moves a number by at most a half |
| `Subtitles.RoundIsMonotone` | scripts/omni.py:987 | and keeps the order |
| `Subtitles.NumberInvertsDecimal` | scripts/omni.py:991 | the printed hours read back |
| `Subtitles.NumberInvertsTwoDigits` | scripts/omni.py:991 | and so do the two-digit fields |
| `Subtitles.ClockReadsBack` | scripts/omni.py:986-991 | the printed time has minutes and seconds below 60 and centiseconds below 100, and reads back to the exact number of centiseconds |
| `Subtitles.BuildAss` | scripts/omni.py:998-1027 | fails exactly without chunks; otherwise the header and one line per chunk, each with the chunk's share of the duration |
| `Subtitles.LinesReadBack` | scripts/omni.py:1022-1027 | whatever the captions hold, cutting the joined lines gives one line for each caption |
| `Subtitles.OneCue` | scripts/omni.py:1020-1023 | each printed length is within one centisecond of its proportional share |
| `Subtitles.CuesTile` | scripts/omni.py:998-1027 | the cues begin at zero, end at the rounded duration, and each ends where the next begins |
| `Subtitles.CaptionChunks` | scripts/omni.py:970-983 | the captions hold the words of the text, none lost, joined by single blanks; each is cut as soon as it is full, and only the last may be open |
| `Subtitles.ChunksAreShort` | scripts/omni.py:978-980 | no chunk is longer than the limit, or one word |
| `Subtitles.TiesToEven` | scripts/omni.py:987 | a number halfway between two others is rounded to the even one |
| `Subtitles.SharesAreLengths` | scripts/omni.py:1016-1023 | captions share the duration by their lengths, and an empty one counts as one character |
| `Subtitles.DialogueExample` | scripts/omni.py:1024-1026 | the form of a caption's line |
| `Subtitles.ClosingMarks` | scripts/omni.py:978-980 | a word closes its caption exactly when it ends in one of six marks |
| `Words.SpacesListed` | scripts/omni.py:971 | the 29 characters that count as white space |
| `Trajectory.ToolsEndAt` | mini_swe_runner.py:376-377 | where the tool messages behind an assistant message end |
| `Trajectory.ConvertCalls` | mini_swe_runner.py:345-401 | the inner loop consumes one assistant message and its tool messages, and the rest is converted from there |
| `Trajectory.ConvertMessages` | mini_swe_runner.py:336-416 | the index loop ends and converts everything behind the first message |
| `Trajectory.ConvertTurn` | mini_swe_runner.py:374-401 | each tool call of a turn is paired with its own response, in order, with its own id and name |
| `Trajectory.ConvertTurns` | mini_swe_runner.py:341-416 | turns are converted one by one, none lost |
| `Trajectory.ConvertPairsCalls` | mini_swe_runner.py:341-416 | a conversation converts to its turns and its final answer, with every call paired and none called unknown |
| `Trajectory.RunCalls` | mini_swe_runner.py:511-544 | one tool message per call, and whether any output signals the end |
| `Trajectory.BuildMessages` | mini_swe_runner.py:451-562 | every message list is a task, turns with calls of which only the last may have signalled the end, and perhaps a final answer; calls never exceed the limit; when the run counts as completed, and why it stopped otherwise |
| `Trajectory.RunTask` | mini_swe_runner.py:418-583 | every trajectory pairs all calls with their responses, for all replies of the model and outputs of its tools |
| `Trajectory.NothingSaidIsLost` | mini_swe_runner.py:336-416 | whatever the messages, what the user and the model said is in the conversion, in order, and nothing else is but tool results |
| `Trajectory.ExtraToolIsUnknown` | mini_swe_runner.py:376-399 | a tool message beyond the calls of its turn is kept under the name unknown |
| `HookManager.Manager.Register` | dxrk/plugin.py:97-113 | gives a new id and adds exactly that hook, in running order |
| `HookManager.Manager.Remove` | dxrk/plugin.py:115-126 | deletes exactly the hook with that id and touches no other point, for every order of visiting the points |
| `HookManager.Manager.Execute` | dxrk/plugin.py:128-144 | runs the point's live hooks in running order |
| `HookManager.Manager.Clear` | dxrk/plugin.py:146-149 | removes all hooks, and ids go on counting |
| `HookManager.Manager.HookCount` | dxrk/plugin.py:151-154 | the number of live hooks of the point |
| `HookManager.Manager.TotalHooks` | dxrk/plugin.py:156-159 | the number of live hooks |
| `HookManager.RunOrderIsDetermined` | dxrk/plugin.py:105-112 | priority and registration order leave no choice: a list is fixed by the hooks in it |
| `HookManager.RegisterKeepsTable` | dxrk/plugin.py:105-112 | inserting before the first larger priority keeps every point's list exact and in order |
| `HookManager.RemoveKeepsTable` | dxrk/plugin.py:118-126 | cutting one hook out keeps every point's list exact and in order, and drops an empty point |
| `HookManager.ListIsStableSort` | dxrk/plugin.py:98-113 | each point's list is the stable sort by priority of its live registrations |
| `HookManager.RunsToFirstError` | dxrk/plugin.py:138-144 | exactly the hooks up to and including the first failing one run, and the error is that hook's |
| `HookManager.TotalIsBalance` | dxrk/plugin.py:97-159 | in every run ids are unique, and the total is registrations minus effective removals since the last clear |
| `HookManager.IdsCountRegistrations` | dxrk/plugin.py:97-104 | ids count the registrations ever made, across removals and clears |
| `HookManager.Perform` | dxrk/plugin.py:89-159 | a manager driven through any operations holds what the run leaves |
| `Scratchpad.Oldest` | dxrk/coordinator.py:310-313 | the entry with the smallest creation time, the first one among equals |
| `Scratchpad.UpsertAt` | dxrk/coordinator.py:316-328 | an existing entry is updated where it stands and keeps its creation time; a new one is appended |
| `Scratchpad.WriteKeepsBounds` | dxrk/coordinator.py:306-328 | keys stay unique and the pad never outgrows the larger of 1 and the limit, whatever the clock shows |
| `Scratchpad.ReadAfterWrite` | dxrk/coordinator.py:306-335 | after a write the key has the new value, at most one other key is gone, and every other entry is unchanged |
| `Scratchpad.WriteSize` | dxrk/coordinator.py:306-328 | how many entries a write leaves; at the limit one goes, also when the key is there already |
| `Scratchpad.WriteRefinesPut` | dxrk/coordinator.py:306-328 | while the clock does not run back, a write drops the head at capacity and then updates or appends |
| `Scratchpad.WriteRefinesPutIff` | dxrk/coordinator.py:306-328 | on every pad with unique keys: a write does so exactly when the pad is not full or its head is the oldest entry |
| `Scratchpad.PadStaysBounded` | dxrk/coordinator.py:306-328 | the bounds hold after every run |
| `Scratchpad.PadRefinesNotes` | dxrk/coordinator.py:306-328 | with a clock that never runs back every run is a run of the plain list |
| `Scratchpad.RunAgreesIff` | dxrk/coordinator.py:306-328 | a run agrees with the plain list all along exactly when every write finds the oldest entry at the head, if it has to drop one |
| `Scratchpad.ClockStepBackDropsNewer` | dxrk/coordinator.py:310-314 | when the clock steps back, a newer note is dropped: a concrete run |
| `Scratchpad.Pad.DropOldest` | dxrk/coordinator.py:310-314 | removes exactly the oldest entry |
| `Scratchpad.Pad.Set` | dxrk/coordinator.py:306-328 | performs the write, and a read of the key finds it |
| `Scratchpad.Pad.Get` | dxrk/coordinator.py:330-335 | the entry of the key, or the error when there is none |
| `Scratchpad.Perform` | dxrk/coordinator.py:306-328 | a pad driven through any writes holds what the run leaves |
| `Coordinator.Worker.AssignTask` | dxrk/coordinator.py:139-143 | the worker is busy with the task from now on, and its old result stays |
| `Coordinator.Worker.Complete` | dxrk/coordinator.py:145-156 | raises exactly without a start time; otherwise the worker is done with output and duration |
| `Coordinator.Worker.Fail` | dxrk/coordinator.py:158-169 | raises exactly without a start time; otherwise the worker has failed with the error and duration |
| `Coordinator.Worker.Reset` | dxrk/coordinator.py:171-177 | the worker is as new |
| `Coordinator.Worker.Stop` | dxrk/coordinator.py:179-184 | never raises; fails a busy worker and leaves every other as it is |
| `Coordinator.Coordinator.CreateTeam` | dxrk/coordinator.py:276-284 | the errors exactly; otherwise a team of new idle workers with those ids |
| `Coordinator.Coordinator.DeleteTeam` | dxrk/coordinator.py:286-294 | removes the team and marks exactly its members as done |
| `Coordinator.FirstLeaves` | dxrk/coordinator.py:347-353 | when the first idle member gets a task, exactly it leaves the list of idle members |
| `Coordinator.Coordinator.DelegateWork` | dxrk/coordinator.py:341-354 | fails exactly without the team or an idle member; otherwise the first idle member gets the task and no other worker changes |
| `Coordinator.Coordinator.DelegateAll` | dxrk/coordinator.py:341-354 | handing out tasks one after another places exactly as many as there are idle members, one each, in team order |
| `Coordinator.Coordinator.Shutdown` | dxrk/coordinator.py:387-396 | never raises, fails exactly the busy members of all teams, and leaves none busy |
| `LineBlocks.BlocksAppend` | dxrk/git.py:408-441 | text can be cut at the beginning or end of a block without changing its blocks |
| `LineBlocks.JoinLine` | dxrk/git.py:420-438 | a further line joins the open block, or belongs to none |
| `LineBlocks.HeadsAreStarts` | dxrk/git.py:416-420 | one block per start line, in order |
| `LineBlocks.BlocksKeepLines` | dxrk/git.py:290-314 | the blocks of a diff make up all its lines from the first header on |
| `GitDiff.Split` | dxrk/git.py:296-304 | no part of a split line contains a space |
| `GitDiff.HunkStatsOfPart` | dxrk/git.py:277-306 | the statistics read from a hunk header are always zero |
| `GitDiff.AddLine` | dxrk/git.py:300-314 | the loop body extends the current file by one line |
| `GitDiff.ParseDiff` | dxrk/git.py:286-320 | the files are those of the blocks of the text, and the totals are the sums over them |
| `GitDiff.Totals` | dxrk/git.py:316-319 | the totals are the number of files and the sums of their counts |
| `GitDiff.ParseAppend` | dxrk/git.py:286-320 | parsing a concatenation is concatenating the parses when the second part starts at a header |
| `GitDiff.OneFilePerHeader` | dxrk/git.py:291-299 | one file per header line, in order, with its path |
| `GitDiff.ReadingInvertsWriting` | dxrk/git.py:286-320 | reading written files gives them back: the new name, the numbers of added and removed lines, and the hunks |
| `GitDiff.HeaderBegins` | dxrk/git.py:291 | a header begins with `diff --git` and a blank, whatever follows |
| `GitDiff.OneNameHasNoPath` | dxrk/git.py:295-297 | a header that names only one file has no path |
| `GitDiff.PathIsRightIff` | dxrk/git.py:291-299 | exactly when the path read from a header is the file's new name: it has no blank |
| `GitDiff.TotalsCountLines` | dxrk/git.py:300-319 | the totals are the numbers of added and removed lines kept from the first header on |
| `GitDiff.ContentIsWholeIff` | dxrk/git.py:300-301 | the content is the whole body exactly when no line looks like a file name line |
| `GitDiff.RemovedAreCountedIff` | dxrk/git.py:300-314 | the lines that start with a hyphen are all counted exactly when none starts with three |
| `GitDiff.AddedAreCountedIff` | dxrk/git.py:300-314 | the lines that start with a plus are all counted exactly when none starts with three |
| `GitDiff.RemovedDashesAreLost` | dxrk/git.py:300-314 | the removal of a line whose text begins with two hyphens is not counted, whatever follows |
| `GitDiff.AddedPlusesAreLost` | dxrk/git.py:300-314 | and so the addition of a line whose text begins with two pluses |
| `Worktrees.FieldsExclude` | dxrk/git.py:423-438 | the kinds of field lines exclude each other |
| `Worktrees.AddField` | dxrk/git.py:423-438 | the loop body extends the current entry by one line |
| `Worktrees.ParseWorktrees` | dxrk/git.py:408-441 | with its three flush points the loop yields the entries of the blocks of the stripped lines |
| `Worktrees.EntriesAppend` | dxrk/git.py:408-441 | a listing can be cut at a blank line or before a worktree line |
| `Worktrees.OneEntryPerLine` | dxrk/git.py:416-420 | one entry per worktree line, in order, with its path |
| `Worktrees.ReadingInvertsListing` | dxrk/git.py:408-441 | reading listed worktrees gives them back: path, hash, branch, and whether they are bare, detached or locked |
| `Worktrees.LockBegins` | dxrk/git.py:436-438 | a lock line begins with `locked`, whatever follows |
| `Worktrees.StripTakesEnds` | dxrk/git.py:412 | stripping takes the white space off both ends and nothing else |
| `Sequences.SortFilter` | dxrk/backup.py:397-401 | selecting the unpinned backups and sorting by age can be exchanged |
| `Sequences.SortKeepsEquals` | dxrk/backup.py:397-400 | the sort is stable: backups of one time keep their listing order |
| `Retention.BackupDir.Prune` | dxrk/backup.py:393-412 | removes the directories that the doomed manifests name, one after the other, except where the deletion fails, and returns the deleted ids |
| `Retention.DirIsLeftIff` | dxrk/backup.py:241-248 | a directory is left exactly when no doomed root that was there and can be removed is it or contains it |
| `Retention.LostIff` | dxrk/backup.py:393-430 | exactly which listed backups lose their directory, pinned or not: those whose directory a doomed manifest names, or names something that contains it, where the deletion succeeds; a pinned manifest itself is never doomed |
| `Retention.ContentIsLeftIff` | dxrk/backup.py:241-248 | exactly when everything at and below a directory is left: no doomed root that goes is above, at or below it |
| `Retention.OutsideStays` | dxrk/backup.py:241-248 | only what lies below the backup root can go |
| `Retention.RefusedStays` | dxrk/backup.py:241-248 | what the file system refuses to remove is left, unless it goes with something above it |
| `Retention.DeletedIds` | dxrk/backup.py:405-412 | when the manifests name their own directories, the ids that come back are those of the doomed backups that may be deleted, in order |
| `Retention.NoRetentionNoLoss` | dxrk/backup.py:394-395 | nothing is deleted when the retention is not positive |
| `Retention.CopyDeletesPinned` | dxrk/backup.py:187 | pruning a copy of a backup that was made before the original was pinned deletes the original: a concrete listing |
| `Retention.PruneRemovesDoomed` | dxrk/backup.py:393-430 | when the doomed manifests name their own directories, exactly they go, except the refused ones, so pinned backups stay |
| `Retention.SparedCount` | dxrk/backup.py:402-404 | the doomed ones are the unpinned ones beyond the retention count, all others are spared |
| `Retention.UnpinnedAfterPrune` | dxrk/backup.py:393-412 | when the doomed manifests name their own directories, what is left of the unpinned ones is those spared and those refused |
| `Retention.NewestAreSpared` | dxrk/backup.py:397-404 | nothing newer than a spared unpinned backup is deleted |
| `Retention.SecondPrune` | dxrk/backup.py:393-412 | under the same guard a second prune dooms exactly the backups whose deletion failed the first time |
| `Retention.PruneIsIdempotent` | dxrk/backup.py:393-412 | under the same guard, when nothing is refused, a second prune deletes nothing and the retention count is met |
| `Checksum.ComputeChecksum` | dxrk/backup.py:348-371 | the checksum of the sorted lines of the regular files, or the first error |
| `Checksum.ScanFailsIff` | dxrk/backup.py:350-364 | it fails exactly when some path cannot be examined or read |
| `Checksum.LineCount` | dxrk/backup.py:350-365 | each regular file contributes its line as often as its path was given |
| `Checksum.TextInLines` | dxrk/backup.py:365-370 | each file is a line of its path, a colon, its digest and a line feed |
| `Checksum.ChecksumOfOne` | dxrk/backup.py:348-371 | the checksum of one readable file, and of none |
| `Checksum.OrderDoesNotMatter` | dxrk/backup.py:348-371 | over one file system, permuting the paths changes neither success nor the checksum |
| `Checksum.ErrorNamesFirst` | dxrk/backup.py:350-364 | the error is about the first path that cannot be examined or read |
| `Checksum.ErrorDependsOnOrder` | dxrk/backup.py:350-364 | with two different bad paths the order decides which one the error names |
| `Checksum.SameForAllOrdersIff` | dxrk/backup.py:348-371 | exactly when every order of the paths gives the same result, errors included: all bad paths are one and the same |
| `Checksum.OnlyRegularCount` | dxrk/backup.py:353-357 | missing and special files leave no trace |

## Left out

- Threads, locks and conditions: one atomic action per lock-protected step or queue operation; a blocking `Queue.pop` is modelled where it can return, and waiting is an action that is not enabled.
- Input and output, processes, the network, clocks and identifiers: replies, clock readings, file states, failing deletions and step effects are parameters; that message ids come back only unused is a hypothesis on runs.
- Floating point in the subtitle timing: durations are real numbers; the fixed header of the subtitle file is a parameter.
- Text encodings, JSON and XML: messages, ballots and tool results are values; reasoning texts that are absent are empty; malformed entries of `tool_calls` do not occur.
- Characters outside ASCII in `str.lower` and `str.isdigit`; the parser's error texts are error values.
- Python's `heapq` is modelled as its documentation and reference implementation describe it; comparing two tasks of equal key cannot happen because sequence numbers differ.
- Handlers that raise in the worker pool: the thread would die with the task running.
- Progress events, time stamps and the quoting of step ids in rollback errors of the pipeline.
- `TaskQueue.Queue.RemoveAndHeapify` and `BinaryHeap.Heapify`: a repaired variant of the removal; the program only has the filter, `TaskQueue.Queue.Remove`. `TaskQueue.Run` covers both.
- `TaskQueue.Queue.Pop`: says that it blocks, and does not model waiting; `WorkerPool` does.
- `AgentNames.TitleToName`: takes `str.lower` as a parameter, because it may turn signs outside ASCII into ASCII letters.
- `Resolver.Resolve`: does not fix which of several missing dependencies below one selected component is named; the set of supported agents is a parameter.
- `MarkedDocs.InjectionsKeepAllBlocks`: speaks of bodies that do not mislead the search; `MarkedDocs.RunsUpdateIff` shows that no others will do.
- `Retention.BackupDir.Prune`: a deletion is all or nothing; what the file system refuses, symbolic links that lead out of the backup root included, is a parameter; manifests that cannot be read are not listed; manifests are well-formed and their times comparable.
- `Trajectory.BuildMessages`: takes the replies of the model and its tools as a list that is long enough.
- `Trajectory.RunTask`: tool arguments that are JSON of another type than an object make the program raise at mini_swe_runner.py:517; such arguments are not modelled.
- The bodies `_build_sdd_block` writes and the modes it depends on: a body is any text.
- Wire formats, handoff, query and the other request kinds: they are requests that differ only in their parameters; JSON-RPC error replies are bodies like any other.
- The cancel callback of a worker, messages within a team, and the context text; one clock reading stands for a whole shutdown; a scratchpad entry that a caller still holds is not updated with the table.
- Hooks that call back into the manager; ids are numbers, of which the program prints `hook-N`.
- Members of a dictionary are visited in any order where the order cannot matter, and in insertion order where it can.
- Restoring backups, and the pairing of backup and restore steps: the pipeline theorem is about any steps that compensate.
- Status, commit, branch and stash parsers, version comparison, permission sets, catalogues, presets, command wrappers, the user interface and the generation of media: easy members or no property of their own.
- The memory, retrieval and session packages are not part of this model.
