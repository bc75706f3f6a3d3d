# Heike, verified

Heike is an agent runtime. This project models its self-contained algorithms and protocols in Dafny and
proves what they are for. One module models one component; classes and loops stand where the original
has objects and loops, state machines where it has goroutines.

| module | component |
|---|---|
| `Dag`, `DagFaults`, `DagRun`, `DagResults` | layering sub-tasks by their dependencies, which fault of a list is reported, running the layers on bounded goroutines with retries, and what the results are |
| `Codex`, `CodexModel`, `CodexSafety`, `CodexInterleaving`, `CodexThreads`, `CodexAnswers` | putting tool calls together from interleaved stream events: on shared heap objects, as a function on values, what every stream keeps, why interleaving does not matter, even before a call's ID is known, and the answer read off the events |
| `SseFraming`, `CodexStream` | the line format of the event stream, and the loop from text to answer |
| `BalancedJson`, `Prose`, `SubTasks` | finding the JSON in a model's answer, and cleaning up the sub-tasks in it |
| `SessionLock` | the two-level lock that serialises the work on a session across lanes |
| `InitOrder` | the order in which the daemon initialises its components |
| `Lease` | leases and fires of scheduled tasks |
| `Policy` | approvals, quotas and the one path to a tool |
| `ExecBuffer` | the output buffer of an exec session |
| `Cognitive` | pruning the context to a budget, and the turns of the agent's loop |
| `Idempotency`, `Ingress` | suppressing duplicates, and queueing events by lane |
| `Transcript` | session transcripts with rotation |
| `Frontmatter` | skill files, printed and parsed |
| `Graphs`, `Strings`, `TextLines`, `Wrappers` | shared: dependency chains and cycles, string order and trimming, lines, option and result types |

Whatever the original asks of others is a parameter, or an arbitrary value: the cognitive engine, planner,
thinker, actor and reflector, the outcome of file operations, the JSON and YAML libraries, cron schedules,
fresh IDs, and a clock that does not go back. `dafny verify
dfyconfig.toml` checks everything.

## Where the code does not do what one might expect

Each of these has its exact condition, an if-and-only-if over all inputs, and an input for which the code
fails.

| what | exactly when | failing input |
|---|---|---|
| Arguments of a tool call are normalised twice when the call is closed before the end of the stream, and the second time can change them. | `CodexInterleaving.SecondNormalisationChangesIff` | `CodexInterleaving.NormalisedTwiceDiffers` |
| A sub-task ID that is made up can be taken already, and the list is then refused as having duplicates. | `SubTasks.IdsDistinctIff` | `SubTasks.MadeUpIdCanBeTaken` |
| A quote left open, or a bracket, before the JSON in an answer hides it. | `BalancedJson.EmbeddedIsSpan`, `Prose.EmbeddedInProse` | `BalancedJson.OpenQuoteHidesText` |
| A very large token limit wraps around and can cut output that would fit. | `ExecBuffer.KeepsWhatFits` | `ExecBuffer.FourBytesOfTen` |
| The token usage after pruning is not the cost when the plan alone is over budget. | `Cognitive.PrunedFits` | `Cognitive.PlanOverBudget` |
| Blank lines and blanks at the ends of a transcript are not read back. | `Transcript.ReadUndoesWrite` | `Transcript.BlankEndsAreLost` |
| Two rotations in one second share a backup file, and the first text is lost. | `Transcript.RotationSurvivesIff`, `Transcript.AllSurviveIff` | `Transcript.TwoRotationsInOneSecond` |
| `---` inside a header field cuts the header short for one parser of skill files. | `Frontmatter.ParseTrimmedRecovers` | `Frontmatter.DashedNameIsLost` |
| `---` on a line of its own cuts it short for the other. | `Frontmatter.ExtractFrontmatterRecovers` | `Frontmatter.RuleLineIsLost` |
| Sources with a colon can share an idempotency key. | `Ingress.SourcesCollideIff` | `Ingress.ColonsCollide` |
| The order of the input decides which of several faults of one pass the scheduler reports; it decides nothing else (`Dag.OrderOfTasksIsIrrelevant`). | `DagFaults.EveryOrderReportsIff` | `DagFaults.FirstFaultDependsOnOrder` |
| A call that is closed before its ID is known gets one that depends on the calls before it. | `CodexThreads.SameIdAnywhereIff` | `CodexThreads.MadeUpIdDependsOnOrder` |
| A task whose schedule never fires again is due again at once, as the zero time is in the past. | `Lease.Store.ShouldFire` fires exactly when the next run has come, whatever the schedule gave | `Lease.FiresAgainAtOnce` |

## Model

| member | source | states |
|---|---|---|
| `Dag.ResolveExecutionBatches` | internal/orchestrator/task/coordinator.go:212-287 | succeeds if and only if no task is nil, IDs are non-empty and unique, all dependencies are known and the graph has no cycle; then batch k lists, in ID order, exactly the tasks whose longest dependency chain has k edges; a failure reports the first declaration fault, else the first dependency fault, else the cycle |
| `Strings.LessMeans` | internal/orchestrator/task/coordinator.go:250-250 | one string comes before another if and only if it is a proper prefix of it, or has the smaller character where they first differ |
| `DagResults.BatchesAreInIdOrder` | internal/orchestrator/task/coordinator.go:250-279 | in every batch of a successful call each ID is a proper prefix of every later one, or has the smaller character where they first differ |
| `Dag.CollectTasks` | internal/orchestrator/task/coordinator.go:217-229 | the first pass builds the table of all tasks, or stops at the first nil, unnamed or repeated one |
| `Dag.CountDependencies` | internal/orchestrator/task/coordinator.go:231-242 | the second pass counts every listed dependency and transposes the lists, or stops at the first unknown or own dependency |
| `Dag.PeelBatches` | internal/orchestrator/task/coordinator.go:244-286 | the third pass ends with all tasks placed exactly when there is no cycle, and its batches are then the layers |
| `Dag.ReleaseDependents` | internal/orchestrator/task/coordinator.go:264-272 | releasing a batch lowers each in-degree by the number of listed dependencies in the batch, and collects exactly the tasks that become free |
| `Dag.PeeledIsLayered` | internal/orchestrator/task/coordinator.go:252-286 | peeling off free tasks until none is left is layering by longest dependency chain, and proves that there is no cycle |
| `Dag.EmptyFrontierHasCycle` | internal/orchestrator/task/coordinator.go:282-284 | when no task is free and some are left, the graph has a cycle |
| `Dag.LayeredUnique` | internal/orchestrator/task/coordinator.go:252-280 | a table of tasks has one layering only |
| `Dag.OrderOfTasksIsIrrelevant` | internal/orchestrator/task/coordinator.go:212-287 | any permutation of the input gives the same success and the same batches, and when it fails the same one of the three passes fails |
| `DagFaults.ReportedInSomeOrderIff` | internal/orchestrator/task/coordinator.go:217-284 | a fault is reported for some order of the input if and only if it is one of: a nil task, an unnamed one, a name used twice; without these, the first bad dependency of some task; without that, a cycle |
| `DagFaults.EveryOrderReportsIff` | internal/orchestrator/task/coordinator.go:217-284 | every order of the input reports the same fault if and only if it is the only possible one |
| `DagFaults.PossibleIsReported` | internal/orchestrator/task/coordinator.go:217-284 | an order for which a possible fault is the one reported |
| `DagFaults.FirstFaultDependsOnOrder` | internal/orchestrator/task/coordinator.go:217-229 | two orders of a nil and an unnamed task report different faults |
| `DagFaults.ErrorMeans` | internal/orchestrator/task/coordinator.go:217-240 | a reported duplicate is a name used twice; a reported dependency is listed by the task that is named, and is no task, or is that task itself |
| `Dag.ResolvedIsPlan` | internal/orchestrator/task/coordinator.go:58-76 | what the scheduler resolves is a plan that the executor can run: each task in one batch, dependencies in earlier ones |
| `Dag.DepsFineIffClosed` | internal/orchestrator/task/coordinator.go:231-239 | the second pass has nothing to report exactly when every dependency is known and no task lists itself |
| `DagRun.EveryStateIsBounded` | internal/orchestrator/task/coordinator.go:98-208 | in every state of every interleaving the semaphore counts exactly the goroutines that hold a slot, at most maxParallel; a task has made at most retryMax engine runs and has slept at most retryBackoff*retryMax*(retryMax-1)/2 |
| `DagRun.InterleavingIsIrrelevant` | internal/orchestrator/task/coordinator.go:58-140 | in every reachable state, whatever the interleaving, the results and their order are those of running the batches one task after the other |
| `DagRun.ReachableInv` | internal/orchestrator/task/coordinator.go:91-210 | the invariant that ties each goroutine to its history holds in every reachable state |
| `DagRun.NeverStuck` | internal/orchestrator/task/coordinator.go:104-128 | until all batches are done some goroutine, or the wait at the end of the batch, can move |
| `DagRun.ExecutionsEnd` | internal/orchestrator/task/coordinator.go:58-210 | no execution has more steps than the plan contains work |
| `DagRun.FinalResultsSolve` | internal/orchestrator/task/coordinator.go:142-208 | the final results satisfy the equations of the tasks: each is the outcome of its task given the results of its dependencies |
| `DagResults.TaskResult` | internal/orchestrator/task/coordinator.go:142-208 | a task with an unsuccessful dependency fails because of the first of them; any other is given one note for each entry of its list, in order, with the output of that task, and its result is the first successful attempt on these notes or the last of retryMax failures |
| `DagResults.RetriesAreExact` | internal/orchestrator/task/coordinator.go:180-207 | a task that is done has called the engine up to its first success, or retryMax times, and has slept 1, 2, 3, ... times the base in between; a blocked one has called it never |
| `DagRun.SolutionUnique` | internal/orchestrator/task/coordinator.go:142-208 | these equations have one solution, so the results depend on the tasks and the engine alone |
| `DagRun.NoMissingResult` | internal/orchestrator/task/coordinator.go:148-152 | in every reachable state each task of the current batch finds a result for each of its dependencies, so the branch for a missing one is never taken |
| `DagRun.NoMissingResultAtLast` | internal/orchestrator/task/coordinator.go:148-152 | no final result reports a missing one |
| `DagRun.ResolvedTasksAreExecuted` | internal/orchestrator/task/coordinator.go:58-89 | from a list of sub-tasks that resolves to the finished run: one result for each of them, and these solve the equations of its tasks |
| `DagRun.SuccessNeedsAllDependencies` | internal/orchestrator/task/coordinator.go:153-155 | a task succeeds only if everything on every dependency chain into it succeeded |
| `DagRun.FinishedExecution` | internal/orchestrator/task/coordinator.go:58-89 | a finished execution has exactly one result for each task, in batch order |
| `DagResults.ResultsAreInOrder` | internal/orchestrator/task/coordinator.go:78-88 | a finished run lists its results by the length of the longest dependency chain, and those of one length by ID |
| `DagRun.CollectedIsOutcome` | internal/orchestrator/task/coordinator.go:135-139 | what a batch collects after its goroutines are done is the outcome of each of its tasks |
| `Codex.Reassembler.EnsureBuffer` | internal/model/providers/codex/codex.go:563-591 | finds or creates the buffer of a call and enters it under both keys, on shared heap objects, exactly as the model does on positions |
| `Codex.Reassembler.RemoveBuffer` | internal/model/providers/codex/codex.go:593-615 | removes the given keys and every other key that leads to the same object |
| `Codex.Reassembler.AppendToolCall` | internal/model/providers/codex/codex.go:617-636 | emits a buffer: nothing for a blank name, an update of the listed call with its ID, or a new entry |
| `Codex.Reassembler.FindListed` | internal/model/providers/codex/codex.go:627-633 | finds the first listed call with an ID |
| `Codex.Reassembler.Complete` | internal/model/providers/codex/codex.go:638-672 | takes over the items of a completed response in order |
| `Codex.Reassembler.Apply` | internal/model/providers/codex/codex.go:506-561 | applies one decoded event to text and buffers, or reports the failure it announces |
| `Codex.Reassembler.Finish` | internal/model/providers/codex/codex.go:467-469 | the final loop emits every buffer in creation order |
| `Codex.Reassembler.List` | internal/model/providers/codex/codex.go:412-472 | the calls that the answer lists |
| `CodexModel.EventsAreOps` | internal/model/providers/codex/codex.go:506-561 | a stream of events is the sequence of its buffer operations beside its text; the two never interfere |
| `CodexAnswers.TextIsFirstOfferThenDeltas` | internal/model/providers/codex/codex.go:506-552 | the text is what the first event that brings any offers, followed by all later text deltas; what is offered later is ignored |
| `CodexAnswers.DeltasAreTheText` | internal/model/providers/codex/codex.go:507-508 | when no whole text is offered before the first delta that is not empty, the text of the answer is the deltas in the order of the stream |
| `CodexAnswers.OfferIsTheText` | internal/model/providers/codex/codex.go:509-552 | without deltas the text is the first that is offered whole: by a done event, a message, or the first message of a completed response |
| `CodexAnswers.OutputTextSnoc` | internal/model/providers/codex/codex.go:674-683 | the text of a message is the text of its parts of the three text kinds, in order |
| `CodexModel.OpStepIgnoresText` | internal/model/providers/codex/codex.go:506-561 | a buffer operation neither reads nor changes the text of the answer |
| `CodexSafety.RunSafe` | internal/model/providers/codex/codex.go:563-672 | over arbitrary streams listed calls have distinct non-empty IDs and visible names, and no key leads to a listed call |
| `CodexSafety.AnswerIsWellFormed` | internal/model/providers/codex/codex.go:467-471 | the same of the final answer |
| `CodexSafety.EmittedOnlyOverwritten` | internal/model/providers/codex/codex.go:617-636 | a later operation changes a listed call only by emitting another one with the same ID, and never its ID |
| `CodexSafety.ListedStaysListed` | internal/model/providers/codex/codex.go:617-636 | what has been listed stays listed, in the same order |
| `CodexThreads.InterleavingIsIrrelevant` | internal/model/providers/codex/codex.go:506-591 | whatever operations of other calls come in between, and whether its first events carry its call ID or only its item, the answer for a call is computed from its own operations alone |
| `CodexThreads.RunBeside` | internal/model/providers/codex/codex.go:563-636 | at every point such a stream has the same buffers as the one with all call IDs filled in, but for the IDs of those that have not been told theirs |
| `CodexThreads.MadeUpIdDependsOnOrder` | internal/model/providers/codex/codex.go:617-626 | a call closed before its ID is known is listed under one made up from its place: two orders of the same two operations list different IDs |
| `CodexThreads.SameIdAnywhereIff` | internal/model/providers/codex/codex.go:617-626 | a call keeps its ID wherever it comes in the list if and only if it has one when it is closed |
| `CodexThreads.LinkedIsThreaded` | internal/model/providers/codex/codex.go:563-591 | streams in which an event without a call ID always names an item seen before are of this kind |
| `CodexAnswers.OpenCallIsListed` | internal/model/providers/codex/codex.go:513-534 | whatever else the stream holds, a call that is open at its end is listed with the first name its events give, and with the last arguments given whole followed by every later arguments delta, normalised |
| `CodexAnswers.ClosedCallIsListed` | internal/model/providers/codex/codex.go:535-546 | a call closed by its last event is listed in the same way, with the arguments of that event if it has some, normalised twice |
| `CodexAnswers.BufferOfCall` | internal/model/providers/codex/codex.go:513-534 | the buffer of a call, read off its events |
| `CodexInterleaving.RunSimulates` | internal/model/providers/codex/codex.go:506-636 | at every point of such a stream each call has, inside the shared state, exactly the buffer and entry it would have alone |
| `CodexInterleaving.AnswersUnique` | internal/model/providers/codex/codex.go:617-636 | an answer says one thing only about a call |
| `CodexInterleaving.InputIsLastArgumentsThenDeltas` | internal/model/providers/codex/codex.go:517-536 | the input of an open call is the last non-empty arguments followed by all later deltas |
| `CodexInterleaving.ClosedCallIsNormalisedTwice` | internal/model/providers/codex/codex.go:467-469 | a call that was closed shows its input normalised twice, once when closed and once in the final loop |
| `CodexInterleaving.SecondNormalisation` | internal/model/providers/codex/codex.go:695-715 | normalising again changes nothing if and only if the normal form is not itself a JSON string |
| `CodexInterleaving.SecondNormalisationChangesIff` | internal/model/providers/codex/codex.go:695-715 | of the arguments: it changes something if and only if they are a JSON string whose trimmed text is valid JSON and a JSON string again |
| `CodexInterleaving.NormalisedTwiceDiffers` | internal/model/providers/codex/codex.go:695-715 | arguments that hold a JSON string inside a JSON string do come out differently the second time |
| `Strings.TrimSpaceMeans` | internal/model/providers/codex/codex.go:696-696 | what is trimmed is white space at the two ends, and all of it |
| `CodexInterleaving.NormalizeTrimmed` | internal/model/providers/codex/codex.go:695-715 | the normal form is trimmed, not empty, and valid JSON or `{}` |
| `CodexStream.TakeLine` | internal/model/providers/codex/codex.go:437-460 | the body of the line loop: what it leaves over means the same as what it found |
| `CodexStream.ReadLines` | internal/model/providers/codex/codex.go:437-465 | the line loop hands on exactly the frames of its lines, up to the first that stops or fails |
| `CodexStream.Consume` | internal/model/providers/codex/codex.go:412-472 | the answer to a text, complete or cut off by a read error, is the one that the model gives for its frames; a line of 8 MiB or more fails it |
| `CodexStream.TooLongIsAnError` | internal/model/providers/codex/codex.go:412-466 | a line that is too long is an error unless the stream was done before it |
| `CodexStream.WrittenStreamIsAnswered` | internal/model/providers/codex/codex.go:412-472 | a written stream of well-formed events with lines below the limit, followed by [DONE] and anything else, is answered by the fold of its events |
| `CodexStream.WrittenEventsAreAnswered` | internal/model/providers/codex/codex.go:491-504 | the same said of the events: one to a frame, with the event name as the kind of an event that has none |
| `CodexStream.EndNeedsNoDone` | internal/model/providers/codex/codex.go:437-480 | and without [DONE], at the end of the text |
| `CodexStream.FailureIsAnError` | internal/model/providers/codex/codex.go:499-504 | a frame that announces a failure, or holds no event, is an error whatever comes later |
| `CodexStream.BrokenIsAnError` | internal/model/providers/codex/codex.go:466-468 | a connection that fails is an error unless the stream was done before |
| `CodexStream.NothingAfterTheEnd` | internal/model/providers/codex/codex.go:439-446 | nothing after [DONE] or after an error has any effect |
| `CodexStream.PlainFramesAreEvents` | internal/model/providers/codex/codex.go:491-504 | frames that neither stop nor fail act as the list of their events |
| `SseFraming.DecodeOfEncode` | internal/model/providers/codex/codex.go:437-465 | every list of frames, with trimmed event names and data lines that do not end in a carriage return, is recovered from its text (sections 9.2.5 and 9.2.6 of the WHATWG HTML standard) |
| `SseFraming.ReadFrame` | internal/model/providers/codex/codex.go:437-465 | the lines of one frame are read as that frame and leave nothing behind |
| `SseFraming.CommentIsIgnored` | internal/model/providers/codex/codex.go:450-452 | a comment, anywhere in a stream, changes nothing |
| `SseFraming.OtherFieldIsIgnored` | internal/model/providers/codex/codex.go:450-463 | nor does any other line that is not blank and starts with neither event: nor data: |
| `SseFraming.CarriageReturnIsIgnored` | internal/model/providers/codex/codex.go:438-438 | nor a carriage return at the end of a line |
| `SseFraming.SpaceIsOptional` | internal/model/providers/codex/codex.go:457-463 | one space after data: is not part of the data |
| `SseFraming.LastEventNameCounts` | internal/model/providers/codex/codex.go:453-456 | the last of several event names counts |
| `SseFraming.NameNeedsData` | internal/model/providers/codex/codex.go:424-429 | an event name without data is forgotten at the next blank line |
| `SseFraming.LastBlankLineIsOptional` | internal/model/providers/codex/codex.go:470-474 | the last frame needs no blank line behind it |
| `SseFraming.TrimCRNeedsCR` | internal/model/providers/codex/codex.go:438-438 | trimming carriage returns changes a line exactly when it ends in one |
| `BalancedJson.ExtractFirstBalanced` | internal/orchestrator/task/manager.go:730-772 | the result is the one span that starts at the first bracket opened outside strings and ends where the depth outside strings first returns to zero; empty exactly when there is none |
| `BalancedJson.EmbeddedIsSpan` | internal/orchestrator/task/manager.go:730-772 | an array or object text of RFC 8259 (sections 4, 5 and 7) after any prefix and before any suffix is that span if and only if the prefix opens no bracket and leaves no string open |
| `Prose.EmbeddedInProse` | internal/orchestrator/task/manager.go:730-772 | the prefixes for which that holds are exactly the prose texts: letters other than quotation marks and opening brackets, and closed quotations with any characters in them |
| `Prose.RecoveredAfterProse` | internal/orchestrator/task/manager.go:730-772 | so after any such prose, and before anything, the extractor returns exactly the JSON text |
| `BalancedJson.EmbeddedIsRecovered` | internal/orchestrator/task/manager.go:730-772 | after a prefix without quotes and opening brackets the extractor returns exactly the JSON text |
| `BalancedJson.OpenQuoteHidesText` | internal/orchestrator/task/manager.go:730-772 | an open quote before an object after which nothing is found |
| `BalancedJson.ValueIsNeutral` | internal/orchestrator/task/manager.go:736-751 | read outside a string, any JSON value leaves the scanner as it found it and never lowers the depth; an array or object is whole |
| `BalancedJson.SpanUnique` | internal/orchestrator/task/manager.go:752-769 | an input has at most one such span |
| `SubTasks.NormalizeSubTasks` | internal/orchestrator/task/manager.go:604-649 | the loops compute the cleaned list |
| `SubTasks.ListMatchesProposals` | internal/orchestrator/task/manager.go:604-649 | the list holds one task for each proposal with a visible description, in the same order, with its own ID unless there is none or an earlier task has it, else task-N, and its own priority or its place |
| `SubTasks.CleanDependencies` | internal/orchestrator/task/manager.go:629-640 | the inner loop over the dependencies |
| `SubTasks.DependenciesAreClean` | internal/orchestrator/task/manager.go:629-640 | the dependencies kept are those asked for, trimmed, not blank, not the task itself, each once |
| `SubTasks.DependenciesKeepOrder` | internal/orchestrator/task/manager.go:629-640 | in the order in which they were first asked for |
| `SubTasks.IdsDistinctIff` | internal/orchestrator/task/manager.go:612-620 | the IDs come out distinct if and only if no made-up ID task-N is taken already |
| `SubTasks.MadeUpIdCanBeTaken` | internal/orchestrator/task/manager.go:612-620 | two tasks for which it is taken |
| `SubTasks.NoClashWithoutTaskNumbers` | internal/orchestrator/task/manager.go:612-620 | when no proposed ID starts with task- all IDs are distinct |
| `SubTasks.WhatTheSchedulerCanFind` | internal/orchestrator/task/manager.go:604-649 | of a cleaned list the scheduler reports a duplicate if and only if a made-up ID was taken, and otherwise only an unknown dependency or a cycle |
| `SessionLock.MutualExclusion` | internal/concurrency/lock.go:17-35 | in every interleaving of N workers at most one is inside orch.Execute for a session, and no mutex is unlocked that is not locked |
| `SessionLock.BindingNeverChanges` | internal/concurrency/lock.go:17-26 | a session stays bound to the mutex it got first |
| `SessionLock.NeverDeadlocked` | internal/concurrency/lock.go:17-35 | while any worker has something left to do, some worker can move: whoever owns m.mu never blocks |
| `SessionLock.HistoriesEnd` | internal/worker/worker.go:123-138 | the workers together take at most nine steps for each event that arrives, and one each to stop |
| `SessionLock.LanesRunInOrder` | internal/worker/worker.go:82-99 | each lane executes its valid events once each, in the order of arrival; all of them by the time nothing is left to do |
| `SessionLock.LanesRunTheirEvents` | internal/worker/worker.go:82-154 | of the events of a lane, exactly those that are not nil and have an ID, a session and a type are executed, in the order they arrived |
| `SessionLock.HistoryInv` | internal/worker/worker.go:123-168 | the lock invariant holds in every reachable state |
| `SessionLock.StepUsesWork` | internal/concurrency/lock.go:17-35 | every step of a worker uses up some of the work there is |
| `InitOrder.Resolver.Visit` | internal/daemon/manager.go:420-444 | the depth-first search ends because it is inside one more name at each level; it adds the name after its dependencies, or finds an unregistered name or a cycle through the name it reports |
| `InitOrder.Resolver.Resolve` | internal/daemon/manager.go:413-454 | succeeds if and only if every dependency is registered and there is no cycle; the order lists each registered name once, after its dependencies, and for every k starts with exactly what the first k components need; an error names a missing dependency or a name on a cycle |
| `InitOrder.Resolver.ComponentByName` | internal/daemon/manager.go:310-317 | finds the first component of a name |
| `InitOrder.OrderedIsAcyclic` | internal/daemon/manager.go:413-454 | an order of all names with dependencies first exists only for closed graphs without cycles |
| `InitOrder.Daemon.ValidateDependencies` | internal/daemon/manager.go:393-411 | reports the first dependency, in order of registration and listing, that is no name of a component; components hidden by one of the same name included |
| `InitOrder.Daemon.InitializeComponents` | internal/daemon/manager.go:201-228 | every Init runs after all its dependencies have been initialised, once, and none after a failure; the outcome is an error exactly when a dependency is missing, there is a cycle or an Init fails, and says which |
| `InitOrder.Daemon.AddComponent` | internal/daemon/manager.go:49-55 | the shutdown order stays the reverse of the registration order |
| `InitOrder.InitRunPrefix` | internal/daemon/manager.go:213-225 | any prefix of the order, up to the first failure, is such a run |
| `Lease.Store.ShouldFire` | internal/scheduler/store.go:159-180 | fires exactly when the next run is due and the schedule parses, and then moves the next run on; otherwise nothing changes |
| `Lease.Store.AcquireLease` | internal/scheduler/store.go:182-201 | grants if there is no lease, or it is not in the leased state, or it expires by now, in memory even when the save fails, and refuses otherwise; that is, once the lease of the file is over, refuses exactly when some lease of the history has neither expired nor been given back |
| `Lease.Store.LeaseTask` | internal/scheduler/store.go:108-128 | the same with a duration that counts from a second look at the clock |
| `Lease.Store.MarkTaskDone` | internal/scheduler/store.go:203-224 | the run of the lease gives it back, and the next run is what the schedule says, if it parses; any other run changes nothing |
| `Lease.EntryKept` | internal/scheduler/store.go:159-224 | every fire, grant and release keeps all of: leases of one task never overlap unless given back by their own run, unexpired ones are the ones in the store, next runs of a regular task only grow from the first fire on, and two of its fires have a scheduled run between them |
| `Lease.EveryRunIsSafe` | internal/scheduler/store.go:159-224 | in every run from a loaded file, with any calls in any order on a clock that does not go back (each method of the store ensures that it is such a step), leases of one task never overlap, next runs of a regular task only grow from its first fire on, and two of its fires have a scheduled run between them |
| `Lease.NoOverlapExtends` | internal/scheduler/store.go:191-197 | a lease is granted only after every earlier one of the task has expired or been given back by its own run |
| `Lease.LeasedIffOutstanding` | internal/scheduler/store.go:182-215 | a task is leased if and only if some lease of its history has neither expired nor been given back |
| `Lease.FiresBounded` | internal/scheduler/store.go:159-224 | in any time window a regular task, one whose schedule always has a later next run and that has fired by no other, fires at most once more often than its schedule has runs in it |
| `Lease.FiresAgainAtOnce` | internal/scheduler/store.go:171-178 | a task whose schedule gives a next run in the past, as the zero time of one that never fires again, is due again at once |
| `Lease.FreshKept` | internal/scheduler/store.go:182-215 | every fire, grant and release by fresh run IDs keeps it so that a run whose lease was taken over no longer holds it |
| `Lease.SupersededRunIsStale` | internal/scheduler/store.go:203-215 | such a run never holds the lease again, so its MarkTaskDone is refused |
| `Lease.PacedExtends` | internal/scheduler/store.go:171-178 | the next run of a regular task is one its schedule gave and never decreases from the first fire on |
| `Lease.Scheduler.ExecuteTask` | internal/scheduler/engine.go:216-256 | a task without a lease, or with one that is over, is leased to a fresh run until leaseDuration from now; an event is submitted only then; after a successful submission the same run gives the lease back, and after a failed one it is left to expire; a lease that is not over blocks everything |
| `Lease.Scheduler.ProcessCronJobs` | internal/scheduler/engine.go:192-214 | a tick fires no task twice and every due task with a schedule that parses exactly once |
| `Policy.Engine.Check` | internal/policy/engine.go:130-186 | allows, and counts, exactly the calls that ask for no special sandbox, are below the limit, and have a listed host, or no host and a tool that is auto-allowed or not restricted; a call that needs approval gets a pending one |
| `Policy.DecisionMeans` | internal/policy/engine.go:130-186 | which answer every other call gets: an escalation asks even over quota, other sandbox permissions are denied, then the quota refuses, then host or tool ask |
| `Policy.Engine.CreateApproval` | internal/policy/engine.go:188-205 | a new pending approval, in memory even when the save fails |
| `Policy.Engine.Resolve` | internal/policy/engine.go:208-239 | a pending approval is settled once and for good; granting one that names a host lists the host; a settled one is refused |
| `Policy.Engine.ConsumeQuota` | internal/policy/engine.go:294-307 | counts a call below the limit, refuses one at it |
| `Policy.Engine.ContainsDomain` | internal/policy/engine.go:276-284 | the allowlist is searched up to case and surrounding space |
| `Policy.Engine.IsGranted` | internal/policy/engine.go:286-292 | true exactly when the file said so or an earlier Resolve granted it |
| `Policy.StatusTellsGrants` | internal/policy/engine.go:208-239 | the statuses in memory and the history of resolutions say the same about which approvals are granted |
| `Policy.Runner.Execute` | internal/tool/runner.go:36-97 | a tool runs exactly when it is known, accepts the input, and has a granted approval below the limit or an allowing decision, at most once a call; each other case has its error; over all calls the runs of each tool equal its usage and never exceed the limit, and every run is justified |
| `Policy.AllowedIsJustified` | internal/policy/engine.go:130-186 | a call allowed without approval goes to a host from the file or from an approval granted before, or has no URL and is auto-allowed or unrestricted |
| `Policy.RestrictedToolsNeedAGrant` | internal/tool/runner.go:50-87 | a tool listed only as needing approval has run on an input without URL only after some approval was granted |
| `Policy.ResolvedSettled` | internal/policy/engine.go:208-239 | a resolution keeps all earlier ones, and all statuses are explained by the file or by one resolution each |
| `Policy.ResolvedDomains` | internal/policy/engine.go:221-228 | the allowlist holds what was loaded and the hosts of granted approvals, and nothing else |
| `Policy.PaidLater` | internal/policy/engine.go:294-296 | a counted run keeps usage equal to the number of runs, within the limit |
| `ExecBuffer.ExecSession.AppendOutput` | internal/tool/builtin/exec_session.go:106-122 | the capped buffer and its relative position follow a log that never forgets; only unread bytes with a full buffer behind them are evicted |
| `ExecBuffer.ExecSession.ReadNewOutput` | internal/tool/builtin/exec_session.go:160-170 | delivers the end of what is unread, in order and never again; what the limit cuts is the front of it |
| `ExecBuffer.ExecSession.WaitAndClose` | internal/tool/builtin/exec_session.go:124-136 | the final message is appended without the cap |
| `ExecBuffer.NothingIsLost` | internal/tool/builtin/exec_session.go:106-170 | every byte produced was delivered once, evicted, cut, or waits unread |
| `ExecBuffer.AppendedConsistent` | internal/tool/builtin/exec_session.go:106-122 | what was delivered is what the log holds at the delivered places, also after an append |
| `ExecBuffer.TakenConsistent` | internal/tool/builtin/exec_session.go:160-170 | and after a read |
| `ExecBuffer.TruncatedIsSuffix` | internal/tool/builtin/exec_session.go:194-203 | truncation keeps an end of the output, of at most four bytes a token |
| `ExecBuffer.NoLimit` | internal/tool/builtin/exec_session.go:195-197 | a limit of zero or less is none |
| `ExecBuffer.KeepsWhatFits` | internal/tool/builtin/exec_session.go:194-203 | it keeps as much as the limit allows if and only if four times the limit does not wrap around to a positive number below the length |
| `ExecBuffer.FourBytesOfTen` | internal/tool/builtin/exec_session.go:198-199 | a limit for which it keeps four bytes of ten |
| `Cognitive.CognitiveContext.Prune` | internal/cognitive/context.go:37-118 | computes the pruned context |
| `Cognitive.PrunedIsGreedy` | internal/cognitive/context.go:50-117 | scratchpad and history become the longest suffix and memories the longest prefix that the lists before them leave room for |
| `Cognitive.PrunedFits` | internal/cognitive/context.go:50-117 | for a positive budget the cost is within it, and the usage is exactly the cost, if and only if the plan alone fits |
| `Cognitive.PrunedOtherwise` | internal/cognitive/context.go:37-70 | without a budget nothing changes; a plan over the budget leaves nothing else |
| `Cognitive.TextCostMeans` | internal/cognitive/context.go:43-43 | four characters cost one token |
| `Cognitive.PlanOverBudget` | internal/cognitive/context.go:50-62 | a plan of two tokens in a budget of one |
| `Cognitive.PruneIsIdempotent` | internal/cognitive/context.go:37-118 | pruning again changes nothing, in all cases |
| `Cognitive.CognitiveContext.Update` | internal/cognitive/context.go:121-136 | a reflection is appended and the context pruned |
| `Cognitive.KeepLatest` | internal/cognitive/context.go:76-86 | the loop from the back keeps as many of the latest entries as fit |
| `Cognitive.KeepEarliest` | internal/cognitive/context.go:90-101 | the loop from the front keeps as many of the earliest entries as fit |
| `Cognitive.Engine.Turn` | internal/cognitive/engine.go:117-213 | one pass of the loop, whatever the others answer: the new context, the outcome, and the turn and retry count that come next |
| `Cognitive.SaidMeans` | internal/cognitive/engine.go:131-163 | a thought is appended first, with the tool calls it makes; then the outputs of these calls, one for each, in order |
| `Cognitive.TurnMeans` | internal/cognitive/engine.go:115-213 | a final answer, a failure, a cancellation and a stop end the loop; a retry stays in the turn three times in a row; a failed reflection moves on and keeps the count |
| `Cognitive.TurnContextMeans` | internal/cognitive/engine.go:165-205 | what acted is pruned, then the reflection is added and pruned for, and at last a new plan is put in |
| `Cognitive.HeadStep` | internal/cognitive/engine.go:115-214 | one pass keeps the history a suffix of all messages, leaves what was pruned beside the plan of that moment within the budget, and lowers 4*(maxTurns-i)-retryCount |
| `Cognitive.TurnKeepsSuffix` | internal/cognitive/engine.go:131-168 | after a turn the history is a suffix of the full log with the messages of the turn |
| `Cognitive.TurnFits` | internal/cognitive/engine.go:165-174 | after a turn that acted the lists fit in the budget beside the plan they were pruned for |
| `Cognitive.Engine.Run` | internal/cognitive/engine.go:86-217 | the loop ends although retries hold the turn back: at most four thoughts a turn and one plan more than turns; the thoughts beyond one a turn are the retries that were asked for, but for one refused after every third in a row; the history is always a suffix of what it held at first and everything appended |
| `Idempotency.Store.CheckAndMark` | internal/idempotency/store.go:71-86 | answers whether the key is remembered, and marks it if not; accepted marks of one key are at least the whole seconds of the time to live apart |
| `Idempotency.Store.Prune` | internal/idempotency/store.go:88-101 | removes exactly the keys that ran out before now and counts them |
| `Idempotency.PruneIsInvisible` | internal/idempotency/store.go:71-101 | calls of Prune anywhere never change what CheckAndMark answers |
| `Idempotency.MarksApartInNanoseconds` | internal/idempotency/store.go:71-86 | two accepted marks of a key are more than the time to live less two seconds apart |
| `Idempotency.RefusedBefore` | internal/idempotency/store.go:71-86 | a repetition is refused at least until two seconds before its time to live is over |
| `Idempotency.AcceptedAfter` | internal/idempotency/store.go:71-86 | and accepted again as soon as the time to live of all earlier ones is over |
| `Ingress.Ingress.Submit` | internal/ingress/ingress.go:80-152 | marks the key first, then answers by destination, resolvers and room; a queued event is the last of its lane, and every queued event has its own accepted mark |
| `Ingress.OncePerTimeToLive` | internal/ingress/ingress.go:96-100 | one source and ID pair is queued at most once per time to live |
| `Ingress.OnceInNanoseconds` | internal/ingress/ingress.go:96-100 | in nanoseconds |
| `Ingress.SourcesCollideIff` | internal/ingress/event.go:55-57 | two different sources can share a key if and only if one of them, with a colon, starts the other |
| `Ingress.KeyIsInjective` | internal/ingress/event.go:55-57 | so sources without a colon never share a key |
| `Ingress.ColonsCollide` | internal/ingress/event.go:55-57 | two that do |
| `Transcript.Worker.AppendTranscript` | internal/store/worker.go:382-402 | appends the line whole or not at all, and rotates first exactly when the file has reached the limit and the rename succeeds; backups, current file and record of the session are determined, other sessions are untouched |
| `Transcript.Worker.CheckAndRotate` | internal/store/worker.go:414-445 | moves a full file to its backup and starts a new one, or leaves everything when the rename fails |
| `Transcript.Worker.ReadTranscript` | internal/store/worker.go:309-329 | returns the last lines written since the last rotation or reset |
| `Transcript.Worker.ResetSession` | internal/store/worker.go:404-412 | removes the current file and the index entry, and nothing else |
| `Transcript.ReadUndoesWrite` | internal/store/worker.go:319-322 | written lines are read back, all of them, if and only if the first starts and the last ends with something other than white space |
| `Transcript.VisibleLines` | internal/store/worker.go:319-319 | what that means for the first and the last line |
| `Transcript.BlankEndsAreLost` | internal/store/worker.go:319-319 | a line with a blank in front and an empty line that are not |
| `Transcript.ReadLastLines` | internal/store/worker.go:324-328 | under a limit the last lines come back |
| `Transcript.RotationSurvivesIff` | internal/store/worker.go:414-445 | what a rotation moved is still in its backup if and only if the last rotation with its time stamp moved the same text |
| `Transcript.AllSurviveIff` | internal/store/worker.go:414-445 | all that was rotated is still there if and only if rotations that share a time stamp moved the same text |
| `Transcript.TwoRotationsInOneSecond` | internal/store/worker.go:421-433 | two rotations in one second, after which the first text is nowhere |
| `Transcript.NothingIsLost` | internal/store/worker.go:382-445 | when rotations that share a time stamp agree, backups in order, what resets removed and the current file are everything ever written |
| `Transcript.BackedUpAfterRotation` | internal/store/worker.go:430-433 | a rotation destroys only a backup with its own time stamp |
| `Frontmatter.FormatSkillContent` | internal/skill/repository/file_repository.go:248-268 | writes the header between two rules, then the content |
| `Frontmatter.HeaderIsLines` | internal/skill/repository/file_repository.go:248-268 | the header has a line each for name and description, and one for each tag and tool, in order |
| `Frontmatter.ParseTrimmedRecovers` | internal/skill/registry.go:322-343 | the registry parser recovers a printed header and body, trimmed, if and only if the header holds no --- |
| `Frontmatter.DashedNameIsLost` | internal/skill/registry.go:322-343 | a name that it does not recover |
| `Frontmatter.ParseTrimmedMeans` | internal/skill/registry.go:322-343 | of any text, trimmed: header and body are what stands between and behind the first two ---, and a blank header is refused |
| `Frontmatter.ParseTrimmedRefuses` | internal/skill/registry.go:326-333 | a text without two of them is refused |
| `Frontmatter.ExtractFrontmatterRecovers` | internal/skill/parser/yaml_parser.go:57-74 | the YAML parser recovers the header to the letter, and the body but for leading line feeds, if and only if no line of the header is --- |
| `Frontmatter.RuleLineIsLost` | internal/skill/parser/yaml_parser.go:57-74 | a header that it does not recover |
| `Frontmatter.ExtractFrontmatterMeans` | internal/skill/parser/yaml_parser.go:57-74 | of any text: header and body are what stands between the first line, if it is ---, and the next such line, and behind it |
| `Frontmatter.ExtractFrontmatterRefuses` | internal/skill/parser/yaml_parser.go:57-71 | a text without two such lines is refused |
| `Frontmatter.HeaderHasNone` | internal/skill/repository/file_repository.go:251-264 | fields without --- make a header without --- |
| `Frontmatter.PrintedSkillIsParsed` | internal/skill/repository/file_repository.go:248-268 | what is printed from fields without --- is recovered by both parsers, which agree up to trimming |

## Left out

- Cancellation, time-outs and shutdown: contexts never end in `DagRun`, workers stop only between events in `SessionLock`, `Ingress.Close` is not modelled.
- Panics of the cognitive engine inside a worker (they release the session and end the worker) in `SessionLock`; a nil event, which ends a worker, is modelled.
- Error texts: errors are told apart by kind and by the names in them.
- Bytes: texts are sequences of characters; UTF-8 and the difference between bytes and characters are not modelled, except in `ExecBuffer`.
- CodexThreads.InterleavingIsIrrelevant: a buffer opened by an item alone must be told its call ID, by an event that names the item too, before it is closed and before the stream ends; streams that break this (`CodexThreads.MadeUpIdDependsOnOrder` is one), or give an item to two calls, are covered by `CodexSafety` only.
- JSON decoding of events, sub-tasks and approvals, YAML, cron syntax, URL parsing: parameters with the few laws named where they are used (`CodexModel.Json.Lawful`, `Lease.LawfulCron`, `Policy.Rules.Lawful`).
- BalancedJson.ValueIsNeutral: accepts more number texts than section 6 of RFC 8259, so it says more than needed.
- The other ways of `parseDecompositionResponse` (whole-answer JSON, line splitting, the default task): they only choose between parsers.
- Lease.Store.ShouldFire: is one atomic step, although the original changes the task under a read lock; two schedulers on one store are not modelled.
- Lease.FiresBounded: is about regular tasks (`Lease.Regular`); the store's methods take any schedule, also one that never fires again, for which the cron library returns the zero time, and one that is not the stored one.
- Scheduler operations that overwrite a task without looking at its lease (`UpdateTask`, `CompleteTask`), heartbeats and catch-up reports.
- Policy.Runner.Execute: calls run one after the other; the original may run several at once, with usage counted before each run. Its usage is never reset in the original either, whatever the name of the limit says.
- A daily limit of zero or less is replaced by 100 in the original; `Policy.Rules.Lawful` starts from the result. `ListApprovals` only lists.
- The components' `Start`, `Stop`, health checks and `rollback`: they follow the registration order, not the order of `InitOrder`.
- Cognitive.Engine.Run: memory persistence in the background; pruning after a replan, which the original does not do.
- Idempotency.Store.CheckAndMark: the original goes through a floating-point number of seconds, which is exact for all durations of less than about a hundred days and not modelled beyond. A negative time to live is truncated toward zero as there. A time to live of zero or less is replaced by a default in the store worker.
- Idempotency and transcript files: a write happens whole or not at all; loading and saving the idempotency file and the session index are not modelled further.
- Ingress.Ingress.Submit: a full interactive lane waits in the original; here other parties may make room first or the caller may give up.
- Transcript.Worker.AppendTranscript: line and line feed are written as one step, so a failure between the two is not modelled.
- The rest of the runtime: providers, adapters, sandboxes, language runtimes, vector search, configuration, prompts, formatting, and small helpers such as tool ranking, which have no invariant of their own.
