# Verification of the component runtime

A Dafny model of how `rpp_cpp` plans, launches, calls and configures a tree of components, with proofs about it.

- **Calling.** `ComponentCallExecutor` is a transition system over program counters for one controller, any number
  of callers and the worker, with a mutex, a condition variable and a promise per call. Unlocking and notifying are
  separate steps. Safety is proved for every run, progress for every fair run. A class with the source's own fields
  carries the locked sections; the transition system uses the same section functions
  (`CallExecutor.dfy`, `CallExecutorLiveness.dfy`, `Fairness.dfy`, `ComponentCallExecutor.dfy`).
- **Planning and building.** `ComponentContextBuilder` collects the tree, prepares one process per language, then
  walks the tree again to build contexts. The disk is an immutable function from paths to records and links. The
  two walks are functions, the builder is a class proved against them (`ContextBuilder.dfy`,
  `ContextPreparation.dfy`, `ContextBuilding.dfy`, `ComponentContextBuilder.dfy`), and the built tree is
  initialized by `Initialization.dfy`. `Sequences.dfy` and `Wrappers.dfy` hold what all parts share.
- **Launching.** The argument vector that `ExternalComponentProcess::create` prints is parsed back by the server's
  `main`, directly or through the quoted Windows command line; `main` then builds and initializes the contexts of
  the roots and registers an adapter over each (`LaunchProtocol.dfy`, `ArgumentQuoting.dfy`, `ExternalProcess.dfy`,
  `ServerHost.dfy`, `ComponentServer.dfy`). The reading side of the quoting is the documented behaviour of
  `CommandLineToArgvW` and of the Microsoft C runtime; the flag `pairs` covers both treatments of two quotes in a row.
- **Child processes.** The POSIX `ChildProcess` runs against an operating system that answers as it likes
  (`ChildProcess.dfy`).
- **Configuring.** C++ parameter types are a datatype `Ty`; the converter specializations are its cases
  (`ParameterConversion.dfy`, `ParameterConverters.dfy`, `ParameterResolution.dfy`, `ParameterDefaults.dfy`,
  `Names.dfy`).

Automatic induction is switched off on every lemma, so each proof rests on its own body alone.

## Where the code is narrower than it looks

- The two passes of the builder hand children different parent paths: collection the node's own path
  (include/rpp_cpp/context_builder.hpp:270), building the record's folder
  (include/rpp_cpp/context_builder.hpp:230). They visit the same components exactly when no linked child sits under
  a component whose path is not its folder; `ContextBuilding.LinkedChildOfLinkedRootIsMissed` is a disk on which
  building seeks a folder that was never prepared. With everything prepared and loading, the same condition decides
  whether `build_from_component_roots` yields what was planned. An empty folder behaves like its child's path,
  because an empty parent path is replaced (include/rpp_cpp/context_builder.hpp:327-329).
- On Windows an argument is cut at its first NUL (src/child_process.cpp:118), and a program name with a quote or a
  trailing backslash does not survive, because that slot knows no escapes.
- `wait` reads the clock after its last poll (src/child_process.cpp:75-93), so a timeout does not mean that the child
  was still alive at the deadline: `ChildProcesses.LastPollCanBeEarly` gives the run, and
  `ChildProcesses.LastPollIsAtDeadlineExactlyWithoutTimeout` says for which timeouts it does mean that.
- An integer default passes through a 32-bit read (src/data_model.cpp:31), so a 64-bit default beyond 32 bits is not
  kept.
- The server computes a home directory from the environment but only `--home` sets the one it uses
  (src/component_server.cpp:38-61).

## Assumptions

- One controller thread calls `start` and `stop`, and `stop` is never called from the worker.
- Progress results hold for fair runs: a thread whose next step is enabled again and again takes it, so tasks finish.
- Nobody else reaps the child, and sleeping lasts at least as long as asked.
- A widened float narrows back to itself, and an integer converted to float is a float.
- An adapter reports the connection name it was configured with.

## Model

| member | source | states |
|---|---|---|
| CallExecutor.StepKeeps | include/rpp_cpp/component_call_executor.hpp:31-119 | every step of the controller, of any caller and of the worker keeps the invariant: mutual exclusion, queue order, promise state, and that a sleeping worker with something to do is owed a wakeup |
| CallExecutor.RunKeeps | include/rpp_cpp/component_call_executor.hpp:31-119 | the invariant holds along every run: any interleaving, any number of callers, any number of restarts |
| CallExecutor.ReachableInv | include/rpp_cpp/component_call_executor.hpp:31-119 | every reachable state satisfies the invariant |
| CallExecutor.SectionsNeverOverlap | include/rpp_cpp/component_call_executor.hpp:33-119 | no two threads are ever inside a critical section of the mutex together |
| CallExecutor.ExactlyOnceInOrder | include/rpp_cpp/component_call_executor.hpp:89-119 | in every reachable state the finished tasks, then the running one, then the queue are the accepted tasks in acceptance order, none twice; a rejected task is never accepted and its promise never set |
| CallExecutor.StepExtends | include/rpp_cpp/component_call_executor.hpp:57-68 | no step rewrites what was accepted, executed or settled |
| CallExecutor.PromisesAreSetOnce | include/rpp_cpp/component_call_executor.hpp:57-68 | along any run a promise once set keeps its outcome, and the accepted and executed histories only grow at the end |
| CallExecutor.NoLostWakeup | include/rpp_cpp/component_call_executor.hpp:72-82 | whenever the worker sleeps un-notified while `stopping_` holds or the queue is non-empty, the controller or a caller can take, right now, a notify step that wakes it |
| CallExecutor.StopDrains | include/rpp_cpp/component_call_executor.hpp:72-84 | once the controller has joined, and whenever nothing is started, every accepted task has been executed and settled and the queue is empty |
| CallExecutor.RestartIsClean | include/rpp_cpp/component_call_executor.hpp:31-40 | `start` on a stopped executor creates a worker with an empty queue and every earlier task done, then assigns it to `thread_` under the same lock, and calls are accepted again |
| CallExecutor.ThreadNamesTheRunningWorker | include/rpp_cpp/component_call_executor.hpp:37-49 | whenever a task runs, across any number of restarts, `thread_` holds the id of the thread that runs it, and that thread is inside no call |
| CallExecutor.ExactlyTheWorkerIsRefused | include/rpp_cpp/component_call_executor.hpp:45-69 | the check at the head of `call` fires for the worker's own calls and for nobody else's: such a call is recorded as refused and changes nothing, any other call makes its promise and goes to the queue |
| CallExecutor.NoTaskWaitsBehindItself | include/rpp_cpp/component_call_executor.hpp:45-69 | every refusal ever recorded was of the worker while it ran a task; the worker never waits for a promise, and no accepted task was handed in by it |
| CallExecutor.CallersGetTheirOwnOutcome | include/rpp_cpp/component_call_executor.hpp:42-70 | a blocked caller's own task is queued, in flight or settled; what `call` returns is the recorded outcome of that caller's own task; a call that threw was never accepted; no caller waiting for a promise is the worker |
| CallExecutor.NoDeadlock | include/rpp_cpp/component_call_executor.hpp:31-119 | in every reachable state that is not quiescent some begun operation has an enabled step |
| CallExecutor.ExecutedIsReported | include/rpp_cpp/component_call_executor.hpp:57-118 | along any run the executor records of every task exactly what that task produced in the step that finished it, in that order, and nothing else |
| CallExecutor.ReturnedIsWhatTheTaskProduced | include/rpp_cpp/component_call_executor.hpp:57-69 | what a call returns or throws is what its own task produced, in an earlier step of the run |
| CallExecutor.AcceptedExactlyWhileRunning | include/rpp_cpp/component_call_executor.hpp:89-99 | a call is accepted, at the end of the queue, exactly while the executor is started and not stopping; otherwise it throws and nothing is queued |
| CallExecutor.CanCall | include/rpp_cpp/component_call_executor.hpp:42-70 | for any client and any outcome there is a run from the initial state in which the client's call returns that outcome |
| CallExecutor.CanCallAndStop | include/rpp_cpp/component_call_executor.hpp:31-84 | and one that then stops the executor, which ends without a thread and with an empty queue |
| CallExecutorLiveness.MutexIsReleased | include/rpp_cpp/component_call_executor.hpp:33-119 | in every fair run the mutex is free again and again |
| CallExecutorLiveness.WorkStepDrains | include/rpp_cpp/component_call_executor.hpp:101-118 | once `stopping_` is set every worker step decreases, by exactly one, a measure over queue length and worker position |
| CallExecutorLiveness.WorkerExits | include/rpp_cpp/component_call_executor.hpp:81-83 | while `stop` waits in `join`, the worker finishes the queue and exits |
| CallExecutorLiveness.StopReturns | include/rpp_cpp/component_call_executor.hpp:72-84 | every `stop` returns, with no worker thread, an empty queue and `started_` cleared |
| CallExecutorLiveness.SettledIsWhatTheTaskProduced | include/rpp_cpp/component_call_executor.hpp:57-68 | a promise holds what its own task produced in the step that finished it |
| CallExecutorLiveness.QueuedTaskSettles | include/rpp_cpp/component_call_executor.hpp:101-118 | a queued task whose caller is blocked is eventually settled, by induction over its position in the queue |
| CallExecutorLiveness.EveryCallReturns | include/rpp_cpp/component_call_executor.hpp:42-70 | every `call` ends: it throws before queueing its task, or returns the outcome of an earlier step k at which the worker finished exactly that task |
| Fairness.EventuallyActs | include/rpp_cpp/component_call_executor.hpp:31-119 | an actor whose next step stays its own and is ready again and again acts, from a state where its situation is unchanged (the fairness the progress results rest on) |
| ComponentCallExecutorObject.ComponentCallExecutor.constructor | include/rpp_cpp/component_call_executor.hpp:121-126 | a new executor is the initial state of the transition system |
| ComponentCallExecutorObject.ComponentCallExecutor.EnterStart | include/rpp_cpp/component_call_executor.hpp:33-39 | the locked part of `start` changes the fields exactly as the two start sections of the transition system do: a new worker gets an id no earlier one had and `thread_` holds it, or nothing changes |
| ComponentCallExecutorObject.ComponentCallExecutor.Refuses | include/rpp_cpp/component_call_executor.hpp:47-50 | a caller is refused exactly when `thread_` holds its id, which is exactly when the transition system records its call as refused |
| ComponentCallExecutorObject.ComponentCallExecutor.EnterStop | include/rpp_cpp/component_call_executor.hpp:75-79 | the locked part of `stop` is the stop section; a stopped executor is left alone |
| ComponentCallExecutorObject.ComponentCallExecutor.EnterEnqueue | include/rpp_cpp/component_call_executor.hpp:92-96 | the locked part of `enqueue` is the enqueue section: refused unless started and not stopping, appended otherwise |
| ComponentCallExecutorObject.ComponentCallExecutor.EnterTake | include/rpp_cpp/component_call_executor.hpp:107-115 | the locked part of the worker loop is the take section: sleep, exit, or pop the front |
| ComponentCallExecutorObject.ComponentCallExecutor.RunToExit | include/rpp_cpp/component_call_executor.hpp:101-118 | with `stopping_` set the loop runs exactly the queued tasks, in order, once each, records of each what its own body produced, and leaves the queue empty |
| ComponentCallExecutorObject.ComponentCallExecutor.Stop | include/rpp_cpp/component_call_executor.hpp:72-84 | a sequential shadow of `CallExecutor.StopDrains`: with nobody else at work, `stop` on a started executor runs the whole queue in order and leaves it empty, unstarted and without a thread; otherwise it does nothing |
| ContextBuilder.ChildPathsDiffer | include/rpp_cpp/data_manager.hpp:221-225 | a child's path extends its parent's folder; for ids without slashes equal paths mean equal folders and equal ids |
| ContextBuilder.LinkPathsDiffer | include/rpp_cpp/data_manager.hpp:252-268 | for parts without slashes equal link paths mean the same parent, the same plugin folder and the same component |
| ContextBuilder.ResolveFailsExactly | include/rpp_cpp/context_builder.hpp:176-205 | each error of the resolution has its own cause, both ways: no plugin name, no linked folder, no description, a second link; the folder of a linked component is two levels up from the parent, then the plugin's folder, then the id |
| ContextBuilder.NodeIsMadeExactly | include/rpp_cpp/context_builder.hpp:239-252 | a node is made if and only if the component resolves and the plugin its own record names is registered, and each error is the one of the step that failed |
| ContextBuilder.NativeSpellings | include/rpp_cpp/data_model.hpp:130-132 | native means "cpp" in any spelling of its three letters, and nothing else |
| ContextBuilder.SubcomponentsInSlotOrder | include/rpp_cpp/context_builder.hpp:263-265 | subcomponent j of slot i comes after all subcomponents of the earlier slots and the first j of its own |
| ContextBuilder.PlannedChildrenAreTheSubcomponents | include/rpp_cpp/context_builder.hpp:263-272 | a native node has one planned child per subcomponent, in order: at the node's folder, then "/subcomponents/", then the id, with the node's path as parent |
| ContextBuilder.FirstFailingSubcomponentDecides | include/rpp_cpp/context_builder.hpp:265-272 | the first subcomponent that cannot be made or collected decides the error |
| ContextBuilder.CollectedInOrder | include/rpp_cpp/context_builder.hpp:254-275 | a node is collected before everything below it, and the nodes below each child before those of the next |
| ContextBuilder.AdaptedKeepOrder | include/rpp_cpp/context_builder.hpp:286-292 | collected adapted nodes keep their order |
| ContextBuilder.ResolvedFolderIsStored | include/rpp_cpp/context_builder.hpp:176-205 | a resolved component's record is the one stored in its folder; its folder is its path exactly when the path holds no link |
| ContextBuilder.FolderDeterminesRecord | include/rpp_cpp/context_builder.hpp:239-252 | two collected nodes with the same folder have the same record and plugin information |
| ContextBuilder.SameRecordExactlyWhenSameStart | include/rpp_cpp/context_builder.hpp:188-193 | for one child, building resolves to the planned record if and only if the child is no link or both passes start from the same parent path |
| ContextBuilder.SameWalkExactlyWithoutDivergentLinks | include/rpp_cpp/context_builder.hpp:207-275 | building a node visits exactly the planned components if and only if no linked child sits under a component whose path and folder differ |
| ContextBuilder.RootIsBuiltAlike | include/rpp_cpp/context_builder.hpp:73-91 | a root is resolved alike by both passes |
| ContextBuilder.PlannedAdaptedAreLeaves | include/rpp_cpp/context_builder.hpp:258-261 | collection never goes below an adapted component |
| ContextBuilder.LookedUpAreCollected | include/rpp_cpp/context_builder.hpp:254-275 | along a plan the second pass looks up exactly the adapted folders the first collected, in the same order |
| ContextBuilder.CollectedAreResolved | include/rpp_cpp/context_builder.hpp:254-275 | every collected node is what the disk and the plugin registry hold for its folder |
| ContextBuilder.RootNodesAreMade | include/rpp_cpp/context_builder.hpp:76-81 | one node per root, in order, each made from its own path as parent |
| ContextBuilder.DeeperPlansAreEqual | include/rpp_cpp/context_builder.hpp:254-275 | whenever collecting ends within a depth, every greater depth gives the same plan or the same error: the depth bound of the model leaves nothing out |
| ContextBuilder.AcyclicDisksAreNeverTooDeep | include/rpp_cpp/context_builder.hpp:254-275 | where no cycle of links and subcomponents is reached from a node, collecting from it ends |
| ContextBuilder.PlannedMeansAcyclic | include/rpp_cpp/context_builder.hpp:254-275 | conversely, collecting succeeds only from nodes that reach no cycle: the nodes it visits have a rank that every child lowers |
| ContextPreparation.Group | include/rpp_cpp/context_builder.hpp:286-292 | a group holds adapted nodes of its own language only |
| ContextPreparation.GroupByLanguage | include/rpp_cpp/context_builder.hpp:286-292 | the filled map has an entry for exactly the languages that occur, each holding that language's adapted nodes in collection order |
| ContextPreparation.GroupsKeepOrder | include/rpp_cpp/context_builder.hpp:286-292 | within its group a node comes after exactly the earlier collected nodes of its language |
| ContextPreparation.NamesFollowIds | include/rpp_cpp/context_builder.hpp:299 | a connection name is the component's own id followed by `_connection`; names are equal if and only if ids are |
| ContextPreparation.SpecDescribesItsNode | include/rpp_cpp/context_builder.hpp:305-309 | a specification holds the node's own folder, plugin and connection name |
| ContextPreparation.GroupsPartition | include/rpp_cpp/context_builder.hpp:286-292 | every collected node occurs in the group of its lower-cased language exactly as often as it was collected, in no other group, and never when it is native |
| ContextPreparation.GroupMembers | include/rpp_cpp/context_builder.hpp:286-292 | a node is adapted and collected if and only if it is in the group of its own language |
| ContextPreparation.HandledWithGroup | include/rpp_cpp/context_builder.hpp:295-304 | handling one more language adds to each connection name exactly its occurrences in that group |
| ContextPreparation.DistinctExactlyWhenAtMostOnce | include/rpp_cpp/context_builder.hpp:294-304 | connection names are pairwise distinct if and only if none occurs twice |
| ContextPreparation.DistinctNamesMeanDistinctFolders | include/rpp_cpp/context_builder.hpp:299-318 | if connection names differ then folders differ, so storing one instance never overwrites another |
| ContextPreparation.OneEntryPerAdaptedNode | include/rpp_cpp/context_builder.hpp:314-318 | after preparation the map has exactly as many entries as there are adapted nodes, each node's folder holding the client made for that node |
| ContextPreparation.GroupIsPrepared | include/rpp_cpp/context_builder.hpp:311-318 | storing one more group's clients keeps every earlier group's clients in place |
| ContextPreparation.AllPrepared | include/rpp_cpp/context_builder.hpp:277-320 | once all languages are handled exactly the adapted folders are prepared and instance i of each process belongs to node i of its group |
| ContextBuilding.BuildFollowsWalk | include/rpp_cpp/context_builder.hpp:207-237 | building succeeds if and only if every visited component loads and every adapted one is prepared; the context then has the walk's shape with each component's own instance; an error names a component that does not load or one that was looked up and not prepared |
| ContextBuilding.BuiltMeansWalked | include/rpp_cpp/context_builder.hpp:207-237 | whatever is built was walked: building never succeeds where the walk fails |
| ContextBuilding.MatchingWalksAreEqual | include/rpp_cpp/context_builder.hpp:234-235 | a context shows which components it was built from: it matches at most one walk over resolved components |
| ContextBuilding.BuiltAsPlannedExactlyWithoutDivergentLinks | include/rpp_cpp/context_builder.hpp:322-354 | with everything prepared and loading, building a root yields the planned components if and only if no linked child sits under a component whose path and folder differ |
| ContextBuilding.RootsBuiltAsPlannedExactlyWithoutDivergentLinks | include/rpp_cpp/context_builder.hpp:73-91 | the same if and only if for all roots together |
| ContextBuilding.EachContextIsItsRoots | include/rpp_cpp/context_builder.hpp:84-90 | context i is the one built from root i |
| ContextBuilding.InstanceOfBuiltRoot | include/rpp_cpp/context_builder.hpp:335-353 | the instance of a built root is the plugin loaded from its own folder, or the client prepared for that folder |
| ContextBuilding.ComponentFailsExactly | include/rpp_cpp/context_builder.hpp:207-237 | an adapted component is looked up first and loaded second, a native one loaded before its children; each error has exactly that cause and names the component's folder |
| ContextBuilding.FirstFailingChildDecides | include/rpp_cpp/context_builder.hpp:223-233 | the first child that cannot be built decides the error |
| ContextBuilding.NotLoadedNamesAComponent | include/rpp_cpp/context_builder.hpp:211-220 | the error for a component that does not load names one the walk visits and that does not load |
| ContextBuilding.MissingParentIsThePath | include/rpp_cpp/context_builder.hpp:327-331 | without a parent path a component is its own parent |
| ContextBuilding.NotPreparedExactlyWhenSomethingIsMissing | include/rpp_cpp/context_builder.hpp:339-343 | when the walk succeeds and everything it visits loads, building a root ends in "was not prepared" if and only if a folder it looks up is not among the collected adapted folders |
| ContextBuilding.DeeperBuildsAreEqual | include/rpp_cpp/context_builder.hpp:322-354 | whenever building ends within a depth, every greater depth gives the same context or the same error |
| ContextBuilding.RemotesAreThoseLookedUp | include/rpp_cpp/context_builder.hpp:339-353 | the remote instances of a context are the prepared clients of the folders looked up, in order |
| ContextBuilding.ReadyExactlyWhenAllLoad | include/rpp_cpp/context_builder.hpp:207-237 | with all adapted folders prepared, a plan can be built if and only if each collected component loads |
| ContextBuilding.PreparedRootBuilds | include/rpp_cpp/context_builder.hpp:322-354 | for a root without divergent links whose adapted folders are prepared, "was not prepared" is unreachable: only a component that does not load stops the building |
| ContextBuilding.PreparedRootsBuild | include/rpp_cpp/context_builder.hpp:84-90 | the same for all roots: one context per root, in order, mirroring its plan |
| ContextBuilding.AllRemotesAreThoseCollected | include/rpp_cpp/context_builder.hpp:84-90 | over all contexts, the remote instances are the clients of the collected adapted nodes in collection order |
| ContextBuilding.BuiltContextsUseEachPreparedInstanceOnce | include/rpp_cpp/context_builder.hpp:73-91 | after a full preparation the contexts mirror the plans and their remote instances are, one for one, the clients of the collected adapted nodes |
| ContextBuilding.DistinctNamesMeanDistinctClients | include/rpp_cpp/context_builder.hpp:299-318 | clients of differently named components differ |
| ContextBuilding.LinkedRootIsPlanned | include/rpp_cpp/context_builder.hpp:266-272 | a concrete workspace, with its paths written out, that has a linked child under a linked root: collection resolves the child from the root's path |
| ContextBuilding.LinkedChildOfLinkedRootIsMissed | include/rpp_cpp/context_builder.hpp:229-231 | in that workspace, with everything collected prepared and everything loading, building still ends in "was not prepared", because it resolves the child from the root's folder |
| ComponentContextBuilders.SpecifyGroup | include/rpp_cpp/context_builder.hpp:296-310 | the names of a group are accepted if and only if they differ from one another and from all taken ones; then the specifications are those of the group in order and the taken names grow by the group's |
| ComponentContextBuilders.AddableGroupIsTaken | include/rpp_cpp/context_builder.hpp:294-304 | accepting a group keeps the taken names equal to the names of all handled nodes, each occurring once |
| ComponentContextBuilders.NotAddableMeansDuplicate | include/rpp_cpp/context_builder.hpp:300-304 | refusing a group is justified: the collected adapted nodes have two equal connection names |
| ComponentContextBuilders.EachLanguageGetsItsServer | include/rpp_cpp/context_builder.hpp:295-318 | when the process of a language starts, it was started with a reachable command whose first argument is the command registered for the language and whose rest the server parses to the home, the port and, in collection order, each component's folder, plugin name and connection name |
| ComponentContextBuilders.FirstFailureIsUnique | include/rpp_cpp/context_builder.hpp:295-318 | the first failing language, and with it the error and the groups stored, is determined by the collected nodes and the launches |
| ComponentContextBuilders.ComponentContextBuilder.CollectComponentNodes | include/rpp_cpp/context_builder.hpp:254-275 | appends exactly the preorder of the node's plan, or fails as the plan does |
| ComponentContextBuilders.ComponentContextBuilder.CollectAll | include/rpp_cpp/context_builder.hpp:277-284 | collects the preorders of all roots in order |
| ComponentContextBuilders.ComponentContextBuilder.StoreGroup | include/rpp_cpp/context_builder.hpp:314-318 | every component of the group has its own client under its folder, and all other entries are unchanged |
| ComponentContextBuilders.ComponentContextBuilder.PrepareGroup | include/rpp_cpp/context_builder.hpp:295-318 | one language: on success its nodes are prepared too and its names taken; on failure the map is unchanged and the failure is a duplicate name or the launch error of that language |
| ComponentContextBuilders.ComponentContextBuilder.PrepareGroups | include/rpp_cpp/context_builder.hpp:286-320 | succeeds if and only if all connection names are distinct and every language's process starts; then all adapted nodes are prepared; otherwise the error is that of the first language in key order that fails, and exactly the groups of the earlier languages are stored |
| ComponentContextBuilders.ComponentContextBuilder.PrepareComponentProcesses | include/rpp_cpp/context_builder.hpp:277-320 | the whole first pass: the previous instances are dropped, collection errors are passed on, and otherwise the outcome is as above |
| ComponentContextBuilders.ComponentContextBuilder.BuildForComponent | include/rpp_cpp/context_builder.hpp:322-354 | builds what the build function says from the prepared map, which it leaves unchanged |
| ComponentContextBuilders.ComponentContextBuilder.BuildNativeComponent | include/rpp_cpp/context_builder.hpp:207-237 | the children of a native component, slot by slot, with the first error ending the building |
| ComponentContextBuilders.ComponentContextBuilder.BuildFromComponentRoots | include/rpp_cpp/context_builder.hpp:73-91 | both passes: fails exactly as root resolution, collection or preparation fail; once prepared, and if everything loads, the contexts are as planned if and only if there are no divergent links; without such links it fails only when something does not load, and no remote instance is used twice |
| Initialization.Initialize | include/rpp_cpp/context.hpp:104-114 | calls the instances in the order of the specification, stopping after the first that throws, and succeeds if and only if none throws |
| Initialization.InitializeSubcomponents | include/rpp_cpp/context.hpp:104-110 | the same for a context without an instance of its own |
| Initialization.CallsStopAtTheFirstFailure | include/rpp_cpp/context.hpp:104-114 | the calls made are a prefix of the order; all but the last are accepted, and the last one is refused unless all were accepted |
| Initialization.CalledExactlyWhenInTree | include/rpp_cpp/context.hpp:104-114 | an instance is called for a position if and only if the tree holds that instance there |
| Initialization.CalledInOrder | include/rpp_cpp/context.hpp:104-114 | of any two calls the earlier is for a descendant of the later or for an earlier sibling branch, so none is repeated |
| Initialization.BeforeIsStrict | include/rpp_cpp/context.hpp:104-114 | that order is irreflexive and total on positions |
| Initialization.BeforeIsTransitive | include/rpp_cpp/context.hpp:104-114 | and transitive, hence a strict total order |
| Initialization.DescendantsAreBefore | include/rpp_cpp/context.hpp:104-114 | in that order every descendant precedes its ancestors |
| Initialization.EarlierSiblingsAreBefore | include/rpp_cpp/context.hpp:104-114 | in that order an earlier sibling with everything below precedes a later one with everything below |
| Initialization.EachAdaptedComponentIsInitializedOnce | include/rpp_cpp/context.hpp:104-114 | initializing the contexts built after a full preparation calls the client of each collected adapted component exactly once, in collection order |
| ArgumentQuoting.QuoteArgument | src/child_process.cpp:128-147 | the loop with its backslash counter computes the quoted form |
| ArgumentQuoting.CommandLine | src/child_process.cpp:155-161 | the loop computes the quoted arguments joined by single spaces |
| ArgumentQuoting.QuotedTexts | src/child_process.cpp:128-147 | the text itself for a blank, an empty argument, a trailing backslash and a quote after a backslash |
| ArgumentQuoting.JoinedText | src/child_process.cpp:155-161 | one space between two quoted arguments, none around them |
| ArgumentQuoting.EscapeParses | src/child_process.cpp:131-145 | from any number of pending backslashes, what is still to be printed parses back to those backslashes followed by the argument |
| ArgumentQuoting.QuoteParses | src/child_process.cpp:128-147 | one quoted argument, whatever characters it holds, parses back as itself under the 2n and 2n+1 backslash rules, whether or not a doubled quote stands for one |
| ArgumentQuoting.QuotedProgramParses | src/child_process.cpp:155-161 | in the program-name slot, which knows no escapes, a name without quotes reads back with its trailing backslashes doubled |
| ArgumentQuoting.WideIsPrefix | src/child_process.cpp:116-126 | the wide conversion cuts an argument at its first NUL |
| ArgumentQuoting.ArgumentsArrive | src/child_process.cpp:155-161 | with a plain program name the child receives every argument, each cut at its first NUL |
| ArgumentQuoting.OddProgramNameIsLost | src/child_process.cpp:155-161 | a program name with a quote or a trailing backslash does not arrive |
| ArgumentQuoting.CommandLineRoundTrip | src/child_process.cpp:128-161 | the parsed command line equals the argument list if and only if the program name holds no quote and no trailing backslash and no argument holds a NUL |
| ChildProcesses.ForksAndReapsBalance | src/child_process.cpp:19-96 | forks equal reaps, plus one exactly while a child is unreaped: nothing is reaped twice |
| ChildProcesses.CallsAddressTheUnreapedChild | src/child_process.cpp:46-112 | every waitpid and every signal goes to the fork that has not been reaped yet |
| ChildProcesses.PollsAreSpaced | src/child_process.cpp:72-95 | poll i of a run comes at least 10 * i milliseconds after the start, so a timed-out last poll comes no earlier than that |
| ChildProcesses.PollsAreBounded | src/child_process.cpp:72-95 | a finite timeout allows at most ceil(timeout/10) + 1 polls |
| ChildProcesses.RunIsPolling | src/child_process.cpp:75-89 | all polls of a run but the last found the child alive or were interrupted |
| ChildProcesses.TimeoutMeansDeadlineReached | src/child_process.cpp:86-94 | a timeout is never early by the clock: a quiet turn goes on exactly while the clock read after it is before the deadline, and any other answer ends the loop |
| ChildProcesses.CleanupEscalates | src/child_process.cpp:218-233 | cleanup asks with SIGTERM first and forces with SIGKILL exactly a child it could not reap by asking; a refused signal is not waited for; asking polls at most 201 times, and forcing until the child is reaped or the system fails |
| ChildProcesses.AskingTakesTwoSeconds | src/child_process.cpp:223-225 | a child that is asked and still runs was given two seconds by the clock |
| ChildProcesses.LastPollCanBeEarly | src/child_process.cpp:75-93 | for every positive timeout there is a run of one quiet poll at the very start that times out, because the clock is read after the poll |
| ChildProcesses.LastPollIsAtDeadlineExactlyWithoutTimeout | src/child_process.cpp:75-93 | a timeout means in every run that the last poll came at or after the deadline if and only if the timeout is not positive |
| ChildProcesses.CodeIsThatOfTheLatestReap | src/child_process.cpp:53-60 | the code after a reap is the exit status, or 128 plus the signal, or for any other status the code before, whichever call reaped the child |
| ChildProcesses.ChildProcess.constructor | include/rpp_cpp/child_process.hpp:40-52 | a new object has no child and exit code -1 |
| ChildProcesses.ChildProcess.Start | src/child_process.cpp:19-44 | a started object refuses; otherwise one fork, and only success leaves it started |
| ChildProcesses.ChildProcess.Running | src/child_process.cpp:46-64 | one poll: true exactly for alive or interrupted; a reap records the exit status, or 128 plus the signal, and ends the child; another error leaves it started and the code as it was |
| ChildProcesses.ChildProcess.PollChild | src/child_process.cpp:51-61 | one poll, shared by `running` and `wait`: the exit status, or 128 plus the signal, of a reaped child becomes the exit code and ends the child; any other answer changes nothing |
| ChildProcesses.ChildProcess.Wait | src/child_process.cpp:66-96 | the polls are those of a run of the loop with its clock reads: a turn goes on exactly after a quiet poll with the deadline not reached; the last turn decides: a reap returns the exit status or 128 plus the signal, a failed poll is the system's error, a quiet poll the timeout |
| ChildProcesses.ChildProcess.RunThenWait | src/child_process.cpp:46-96 | a child reaped by `running` leaves the code of its status for a later `wait`, which polls no more |
| ChildProcesses.ChildProcess.Send | src/child_process.cpp:98-112 | one signal to the child when there is one; a missing process is no error |
| ChildProcesses.ChildProcess.Attempt | src/child_process.cpp:223-229 | one guarded block of `cleanup`: a signal and, unless refused, one wait |
| ChildProcesses.ChildProcess.Cleanup | src/child_process.cpp:218-233 | SIGTERM with two seconds, then SIGKILL exactly when the first attempt did not reap the child; it ends started only if neither attempt reaped it |
| ParameterConversion.Narrow | include/rpp_cpp/parameter_description.hpp:194-234 | a narrowed integer is in the range of its width and unchanged when it was already |
| ParameterConversion.NarrowIsCongruent | include/rpp_cpp/parameter_description.hpp:194-234 | the narrowed integer is the one in range that differs by a multiple of two to the width |
| ParameterConversion.FromSucceedsExactlyOnConforming | include/rpp_cpp/parameter_description.hpp:194-495 | a conversion succeeds if and only if the value has the type's shape: integers pass for floats, extra struct fields are ignored |
| ParameterConversion.FromInhabits | include/rpp_cpp/parameter_description.hpp:194-495 | what a conversion yields is a value of the type, narrowed integers in range included |
| ParameterConversion.ToFieldsHolds | include/rpp_cpp/parameter_description.hpp:440-456 | reflecting a struct writes each member under its own name and nothing else |
| ParameterConversion.ScalarsAreStoredAsThemselves | include/rpp_cpp/parameter_description.hpp:188-347 | a boolean, integer, text or number is stored as itself, and a dynamic value as it is |
| ParameterConversion.NumbersAreReadAs | include/rpp_cpp/parameter_description.hpp:261-295 | an integer read as a number carries the rounding of that integer, once; a stored number is narrowed once for float and unchanged for double |
| ParameterConversion.ElementsStayInPlace | include/rpp_cpp/parameter_description.hpp:353-387 | element i of a list becomes element i, in both directions |
| ParameterConversion.EntriesKeepTheirKeys | include/rpp_cpp/parameter_description.hpp:393-426 | a map keeps its keys and each value its own key, in both directions |
| ParameterConversion.MembersReadTheirFields | include/rpp_cpp/parameter_description.hpp:459-495 | each member of a struct is read from the field of its own name |
| ParameterConversion.TypedRoundTrip | include/rpp_cpp/parameter_description.hpp:188-495 | `from<T>(to<T>(v)) == v` for every type built from sized integers, floats, bool, string, vector, map and struct |
| ParameterConversion.NormalisationIsIdempotent | include/rpp_cpp/parameter_description.hpp:188-495 | reading a value, writing it back and reading it again gives the same typed value |
| ParameterConversion.LosslessExactlyWhenExact | include/rpp_cpp/parameter_description.hpp:188-495 | `to<T>(from<T>(v)) == v` if and only if every number in `v` is exactly representable in T and no struct has an extra field |
| ParameterConverters.ConvertFrom | include/rpp_cpp/parameter_description.hpp:194-495 | dispatch over the type computes the conversion |
| ParameterConverters.VectorFrom | include/rpp_cpp/parameter_description.hpp:369-387 | the loop over elements computes the conversion; one bad element fails it |
| ParameterConverters.MapFrom | include/rpp_cpp/parameter_description.hpp:409-426 | the loop over entries, in any order, computes the conversion |
| ParameterConverters.StructFrom | include/rpp_cpp/parameter_description.hpp:459-495 | the reflection loop computes the conversion; a missing field fails it |
| ParameterConverters.ConvertTo | include/rpp_cpp/parameter_description.hpp:188-457 | the loops over elements, entries and members compute the written value |
| ParameterResolution.ResolveList | src/parameter_handler.cpp:34-50 | the loop over a list of descriptions gives exactly the described names, each its override where there is one and otherwise the default of its last description; it resolves as the map overload does on that map of defaults |
| ParameterResolution.ResolveMap | src/parameter_handler.cpp:52-69 | exactly the described names; an override wins wherever there is one, and every other name has its default |
| ParameterResolution.LastWinsNames | src/parameter_handler.cpp:41-48 | the resolved names are exactly the described ones |
| ParameterResolution.LastDescriptionDecides | src/parameter_handler.cpp:41-48 | a name described several times gets the default of its last description |
| ParameterResolution.EachNameResolves | src/parameter_handler.cpp:41-50 | name by name: a name is resolved exactly if described, its value is the override if there is one, and otherwise the default of its last description |
| ParameterResolution.OverrideReadsBack | src/parameter_handler.cpp:43-47 | an override of a described parameter reads back as the typed value it was written from |
| ParameterResolution.DefaultsReadBack | include/rpp_cpp/parameter_description.hpp:504-513 | a parameter created with a typed default and not overridden reads back as that default |
| ParameterResolution.GetSucceedsExactly | include/rpp_cpp/parameters.hpp:26-38 | `get<T>` succeeds if and only if the name is described and its override, or else its last default, has the shape of T |
| ParameterDefaults.ParseParameterValue | src/data_model.cpp:25-63 | the recursive lambda, filling lists and maps in loops, computes the default reader |
| ParameterDefaults.ReadSucceedsExactlyOnReadable | src/data_model.cpp:25-63 | reading succeeds if and only if every tag is known and every scalar default, where present, has a readable kind |
| ParameterDefaults.DefaultFitsExactlyWhenTagsMatch | src/data_model.cpp:25-63 | a readable default converts to a type if and only if its tags match the type, nested arrays and objects included |
| ParameterDefaults.ScalarDefaultsArrive | src/data_model.cpp:30-41 | a default of the tagged kind arrives as itself; an integer default of a float is rounded once |
| ParameterDefaults.MissingDefaultsAreEmpty | src/data_model.cpp:30-41 | a missing default is zero, false or empty |
| ParameterDefaults.NestedDefaultsStayInPlace | src/data_model.cpp:42-59 | elements keep their order and fields their names, each read by the same rules |
| ParameterDefaults.MissingContainersAreEmpty | src/data_model.cpp:42-59 | missing or misplaced elements and fields count as none |
| ParameterDefaults.UnknownTagsAreRefused | src/data_model.cpp:60-62 | without one of the six tags nothing is read |
| ParameterDefaults.WrongDefaultsAreRefused | src/data_model.cpp:30-41 | a default of the wrong kind is refused, not converted |
| ParameterDefaults.IntDefaultIsKeptExactly | src/data_model.cpp:30-32 | an integer default reaches a parameter of a given width unchanged if and only if it fits that width and 32 bits |
| Names.ToLowerCopy | include/rpp_cpp/data_model.hpp:123-128 | the in-place loop lower-cases every character |
| Names.LowerAt | include/rpp_cpp/data_model.hpp:123-128 | upper-case letters move by 32, every other character stays |
| Names.LeastKey | include/rpp_cpp/context_builder.hpp:295 | the key a sorted map visits next: every other remaining key comes after it |
| Names.LessIsLexicographic | include/rpp_cpp/context_builder.hpp:295 | keys are ordered by their first difference, and a key comes before its extensions |
| Names.LessIsStrictAndTotal | include/rpp_cpp/context_builder.hpp:295 | key order is irreflexive and total |
| Names.LessIsTransitive | include/rpp_cpp/context_builder.hpp:295 | and transitive |
| Names.ToSnakeCase | include/rpp_cpp/data_manager.hpp:24-46 | the loop computes the snake case of a plugin name |
| Names.SnakeCaseAt | include/rpp_cpp/data_manager.hpp:31-44 | character by character: a separator becomes an underscore, an upper-case letter its lower-case one, after an underscore unless it is first or follows a separator, and anything else stays |
| Names.SnakeCaseProperties | include/rpp_cpp/data_manager.hpp:24-51 | the result is snake case, converting again changes nothing, and exactly the snake-case names are left unchanged |
| LaunchProtocol.PortRoundTrip | src/component_server.cpp:66-68 | a port printed in decimal is read back as itself by `stoi`, so the 16-bit cast changes nothing |
| LaunchProtocol.BuildCommand | include/rpp_cpp/external_component_process.hpp:92-116 | the loop builds the argument vector: the header, then six arguments per component |
| LaunchProtocol.ParseCommandLine | src/component_server.cpp:50-93 | the index loop, with its inner increments, and both size checks compute the parser |
| LaunchProtocol.StoiReads | src/component_server.cpp:66-68 | `stoi` skips blanks, reads a sign and decimal digits and ignores the rest; it throws outside 32 bits |
| LaunchProtocol.PortsAreDecimal | include/rpp_cpp/external_component_process.hpp:94 | ports are written in ordinary decimal digits |
| LaunchProtocol.CommandLayout | include/rpp_cpp/external_component_process.hpp:92-116 | the command has seven arguments of header, the server first, and behind them six for each component, in order |
| LaunchProtocol.OmittedHostAndPort | src/component_server.cpp:31-33 | without host and port the server listens on localhost:8080 |
| LaunchProtocol.HelpEndsParsing | src/component_server.cpp:53-56 | a request for help in flag position ends the parsing, whatever follows |
| LaunchProtocol.OtherArgumentsAreSkipped | src/component_server.cpp:50-83 | an unknown argument is skipped, and so is a flag with nothing after it |
| LaunchProtocol.PortIsCutTo16Bits | src/component_server.cpp:66-68 | a port argument is cut to 16 bits; one that is no number stops the server |
| LaunchProtocol.ListsMustMatch | src/component_server.cpp:85-93 | at the end a missing list is reported, then lists of different lengths, and otherwise the server serves with what was parsed |
| LaunchProtocol.OneComponentParses | src/component_server.cpp:70-82 | one component's six arguments are parsed to its path, plugin and connection, whatever strings they are |
| LaunchProtocol.LaunchRoundTrip | include/rpp_cpp/external_component_process.hpp:92-116 | the server recovers host, port, home and the ordered path, plugin and connection lists and passes both size checks, even when a value looks like a flag |
| LaunchProtocol.WindowsLaunchRoundTrip | src/child_process.cpp:155-161 | the same through one quoted Windows command line, for a plain server name and NUL-free strings |
| ExternalProcesses.ExternalComponentProcessRegistry.constructor | include/rpp_cpp/external_component_process.hpp:34-38 | python and cpp, and no other language, are registered with their server commands |
| ExternalProcesses.ExternalComponentProcessRegistry.RegisterServer | include/rpp_cpp/external_component_process.hpp:40-47 | refused if and only if a text is empty; otherwise every spelling of the language finds the command from then on, and every other language finds what it found before |
| ExternalProcesses.ExternalComponentProcessRegistry.CommandFor | include/rpp_cpp/external_component_process.hpp:49-58 | the lookup ignores case and fails for an unregistered language; the lower-cased key of a group finds the same command |
| ExternalProcesses.GroupKeyFindsTheCommand | include/rpp_cpp/context_builder.hpp:289 | looking a command up by the key under which a group is kept is looking it up by any spelling of its language |
| ExternalProcesses.LaunchSucceedsExactly | include/rpp_cpp/external_component_process.hpp:84-124 | there is a command that starts the registered server and that the server's own parser reads as the local host, the launcher's port, the home and, in order, each component's folder, plugin name and connection; launching succeeds if and only if all adapters load and that command is reachable |
| ExternalProcesses.LaunchFailsExactly | include/rpp_cpp/external_component_process.hpp:79-124 | each failure has its own cause, both ways, and success gives component i client i of the process |
| ExternalProcesses.RefusedCommandFails | include/rpp_cpp/external_component_process.hpp:118-124 | a launcher that reaches no such command makes the launch fail |
| ExternalProcesses.Create | include/rpp_cpp/external_component_process.hpp:71-124 | one client per component, in order, or the first of: no components, no server, an adapter that does not load, a server that cannot be reached with the command built |
| ServerHosts.RppServerHost.constructor | include/rpp_cpp/rpp_server_host.hpp:28-39 | a new host has no adapters |
| ServerHosts.RppServerHost.AddServer | include/rpp_cpp/rpp_server_host.hpp:41-47 | the adapter is stored under the name it reports, so the registry stays that of all adapters added so far, the last of each name winning |
| ServerHosts.LastRegistrationWins | include/rpp_cpp/rpp_server_host.hpp:41-47 | a name resolves to the last adapter registered under it |
| ServerHosts.NoneLostExactlyWhenDistinct | include/rpp_cpp/rpp_server_host.hpp:41-47 | there are as many registered adapters as components if and only if the connection names are pairwise distinct |
| ServerHosts.EachConnectionFindsItsContext | include/rpp_cpp/rpp_server_host.hpp:41-47 | with distinct names, looking up connection i yields the adapter over context i |
| ComponentServers.CheckRoots | src/component_server.cpp:107-117 | the roots are those of the arguments, in order, if and only if every plugin is registered and native; otherwise nothing is built |
| ComponentServers.RegisterAdapters | src/component_server.cpp:123-141 | every context is initialized and its adapter registered if and only if no instance throws and every server adapter loads; a failure names the first context that is not served, and the earlier adapters stay registered |
| ComponentServers.ServeComponents | src/component_server.cpp:107-141 | the server gets to serving if and only if every root is native, resolves, is prepared, builds and initializes and every adapter loads; without divergent links, if and only if every root is native and planned, names differ, all processes start, all collected components load, all contexts initialize and all adapters load; the registry then holds the adapters over the contexts built from the roots |
| ComponentServers.RunServer | src/component_server.cpp:23-145 | the whole program from its argument vector: it stops as the parser says, or serves under exactly the conditions above, in both forms, for the parsed roots and home |
| ComponentServers.ParsedCountsAgree | src/component_server.cpp:85-93 | the three parsed lists of an accepted command line have the same length |
| ComponentServers.ContextsOfRoots | src/component_server.cpp:121-129 | one context per parsed root, context i built from path i and plugin i |
| ComponentServers.EachConnectionServesItsRoot | src/component_server.cpp:123-141 | with distinct connection names, looking up connection i yields an adapter that reports it, over the context built from root i, which was initialized, has that root's own instance and whose server adapter loads |
| ComponentServers.LaunchedServerServesEachComponent | src/component_server.cpp:50-141 | from the parent's argument vector to the registry: with distinct names, when the launched server serves, each component's connection yields the adapter over the context built from the path and plugin the parent meant |

## Left out

- Cap'n Proto RPC, sockets, ports and retries: connecting is one abstract answer of the launcher.
- Plugin loading, generated adapters, pybind11 and the Python parameter file: loading is an abstract yes or no for each component, and overrides are an arbitrary map.
- JSON text and directory access: JSON is a tree, the disk a function that does not change while the builder runs, and the only file system test is whether a linked folder exists.
- Real `fork`, `exec`, `CreateProcessW` and the UTF-8 to UTF-16 conversion: only the cut at the first NUL is kept of the conversion.
- The Windows lifecycle of `ChildProcess`: only its quoting and command line are modelled.
- A child that never ends: the unlimited `wait` is modelled for a system that answers "still alive" only finitely often.
- The overflow from adding an unlimited timeout to the clock in `wait`: an unlimited wait has no deadline.
- The unsynchronised write of `started_` and reads of `thread_` outside the lock: steps are sequentially consistent.
- ComponentCallExecutorObject.ComponentCallExecutor.Stop: the worker's loop runs inside the stopping thread; notify, join and concurrent callers are in the transition system only.
- Exceptions are values: their texts, and which of several failing elements of a map throws first, are not modelled.
- ParameterConversion.TypedRoundTrip: floating-point numbers are bit patterns with abstract rounding, so nothing is said about how a number rounds.
- ExternalProcesses.Create: the constructor's child process, executor and connection are one question to the launcher; what its destructor does is not modelled.
- ComponentServers.RunServer: the debug assertion that a plugin name is not empty, the printed messages and the serving itself.
- Slot names: a context lists its children slot by slot in key order, without the names.
- `build_component_from_path` and the script entry points: they prepare and build as the root list does, from one root or from a description; choosing a configuration and its paths is not modelled.
- Endless recursion: functions take a depth, `TooDeep` stands for not having ended, `ContextBuilder.DeeperPlansAreEqual` and `ContextBuilding.DeeperBuildsAreEqual` say that a sufficient depth decides, and `ContextBuilder.AcyclicDisksAreNeverTooDeep` when the first pass has one.
- Characters are single code units of the C locale: lower-casing changes A to Z only, and keys are ordered by code unit.
- The Python component server is not part of this model.
- Logger, clock choice, signal handlers, `run` and `shutdown` of the server host, and the list and component lookups of a context.
