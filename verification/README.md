# A verified model of rivers

rivers runs data pipelines: a code location is served by a development supervisor, schedules work
through a daemon, plans jobs over an asset graph and stores what the assets produce. This project
models the parts of it where several steps, loops or processes have to agree with each other, and
proves what they promise for every input and every run.

- **Graceful shutdown** (`Shutdown`, `ShutdownRuns`, `ShutdownProgress`, `QuietShutdown`): the signal task, the shutdown
  coordinator, the two services with their handle slots, the watchdog and the forced exits, as one
  state machine over all interleavings. In retire mode the coordinator waits for the daemon it finds
  registered when it looks. A second daemon leaves the first one dispatching, and nothing waits for a
  daemon registered after the look, so a quiet shutdown is guaranteed exactly for processes that start
  no daemon, or one that they register before the look. A shutdown can complete by itself from every
  state of every run, except when it waits for a daemon whose task panicked before it stopped
  scheduling: nothing cancels that daemon's token any more.
- **Generation handover** (`DevChild`, `Supervisor`, `Handover`, `HandoverPort`, `HandoverSteps`,
  `HandoverProgress`, `HandoverRuns`, `SupervisorSteps`): the development supervisor composed with its child processes,
  each holding a whole shutdown state machine, and with the port they hand over. Two generations never schedule at the same time exactly
  when the location has no daemon, or no other program takes the port and no server fails on its own.
- **Partition predicates** (`PartitionFilters`, `PartitionPredicate`, `CartesianProduct`,
  `PartitionSelection`, `PartitionExactness`, `PartitionCounterexamples`, `SqlText`, `PartitionText`,
  `PartitionMeaning`): the SQL text for a set of partition keys selects exactly the rows that belong to
  one of the partitions. For single-valued keys over the same dimensions, each with a column of its own, the
  factored form does so exactly when the keys are distinct and every time-window dimension takes at
  most one value.
- **Job planning** (`NodeExpansion`, `AssetGraph`, `ActionPlan`, `JobPlan`): expansion of the declared
  nodes, the completeness check and the node map agree; action runs wait for each other without ever
  getting stuck.
- **Class-form actions** (`ActionEntries`, `ActionNearest`, `ActionResolution`, `ActionVerbs`): which actions a class
  inherits, overrides and lists.
- **Streaming collect** (`Decimal`, `Streaming`): the completion channel and the two generators on it.
- **Worker threads** (`GilThreads`): spawning, reaping and draining in every interleaving.
- **Sling** (`SlingLog`, `Masking`, `SlingSecrets`, `SecretsMeaning`): the log-driven materializations, and
  the secrets that never reach a log.
- **Storage handlers** (`StorageKeys`, `StorageHandlers`): storage keys can be read back, so both
  handlers act as a map keyed by asset and partition.

`Wrappers`, `Strings` and `Sets` hold what several of them share.

State machines are datatypes with an `Enabled` and an `Apply` (or `After`) over nested actions; a run
is a sequence of states or actions. Objects that the code updates in place are classes (`Supervisor`,
`Job`, `CompletionQueue`, `Registry`, `Handler`), and loops are methods proved against specification
functions or against the property itself. Methods named `Follow` create such an object and take it
through any run of the state machine it belongs to.

Some documentation and the code disagree; the model follows the code:

- `traverse` is documented to leave out the node it starts from; it finds that node when it lies on a
  cycle (`AssetGraph.Traverse`).
- The final flush of the ordered generator never yields (`Streaming.OrderedStreamGenerator`).
- A selected output named twice is yielded twice when it does not succeed in the log
  (`SlingLog.SilentLogRepeats`); every log yields each output once exactly when the selection names
  none twice (`SlingLog.OnceForEveryLogExactlyWhen`).
- A secret that starts or ends with a star, or contains three in a row, can reappear in a masked
  message; every other secret cannot (`Masking.HiddenExactlyWhen`).
- Retire mode is meant to wait until the daemon stops scheduling; when its task panics first, the wait
  only ends by a forced exit (`ShutdownProgress.CompletesExactlyWhen`).
- An action attribute whose name starts with two underscores may be hidden by an ordinary attribute
  of a subclass, which is then called in its place (`ActionVerbs.DunderBodyHidden`).

## Model

| member | source | states |
|---|---|---|
| Shutdown.StepKeepsInv | python/src/shutdown.rs:62-109 | Every step of the signal task, the coordinator, the services and the drain keeps: one owner per handle, the order of the phases, and the escalation count |
| Shutdown.RunInv | python/src/shutdown.rs:276-315 | That invariant holds in every state of every run, and the mode never changes |
| ShutdownRuns.AwaitedWasRegistered | python/src/shutdown.rs:276-289 | What the coordinator waits for is the content of the daemon slot at the one moment it looked |
| ShutdownRuns.ShutdownAfterDrain | python/src/shutdown.rs:291-309 | The shutdown token is cancelled only after the drain token, and after the daemon found registered stopped scheduling (retire mode) or was joined (default mode) |
| ShutdownRuns.CompletionJoinsRegistered | python/src/shutdown.rs:219-240 | Completion comes only after each handle still in a slot when its turn came was resolved and joined, unless a later registration replaced it or a caller of `stop_grpc` took it |
| ShutdownRuns.JoinedOnce | python/src/shutdown.rs:100-109 | No handle is joined twice, by the coordinator or by any number of `stop_grpc` callers |
| ShutdownRuns.WatchdogArmedOnce | python/src/shutdown.rs:246-272 | Before completion the watchdog is armed at most once, never before the drain, and in retire mode on the second signal |
| ShutdownRuns.ForcedExitBySignal | python/src/shutdown.rs:135-152 | A forced exit before completion comes on the third signal in retire mode, on the second or third otherwise, never on the first |
| ShutdownRuns.FurtherSignal | python/src/shutdown.rs:135-152 | A further signal either arms the watchdog or forces the exit, never both; in retire mode the second arms and the third exits |
| ShutdownProgress.CompletesExactlyWhen | python/src/shutdown.rs:276-315 | A running process can still complete its shutdown, without starting services or being forced, exactly when it, in retire mode, neither waits for nor will look at a daemon that panicked before it stopped scheduling |
| ShutdownProgress.DoomedForever | python/src/daemon/mod.rs:595-613 | A shutdown that waits for such a daemon waits for it ever after |
| ShutdownProgress.CompletionDisarms | python/src/shutdown.rs:310-315 | Completing aborts the watchdog, so nothing times out any more |
| ShutdownProgress.ExitHadCause | python/src/shutdown.rs:246-272 | In every run, a process that timed out had its watchdog armed, and one that returned had completed |
| ShutdownProgress.ExitsExactlyWhen | python/src/shutdown.rs:135-152 | How a process can end is decided by the signals received, the watchdog and completion, and nothing follows the end |
| ShutdownProgress.StopsForCause | python/src/shutdown.rs:62-68 | A daemon stops only when told to by its own or the drain token, a server's task ends only after it stopped, and only a daemon that stops reports that it is quiet |
| ShutdownProgress.TakenIsTold | python/src/shutdown.rs:100-109 | `stop_grpc` tells the server it takes to stop, and takes it from the slot |
| ShutdownProgress.ReplacedIsTold | python/src/shutdown.rs:62-68 | Registering a handle tells the one it replaces to stop |
| QuietShutdown.OneDaemonQuiet | python/src/shutdown.rs:276-309 | One daemon, registered before the coordinator looks, dispatches no work once the shutdown token is cancelled in retire mode |
| QuietShutdown.FirstStillRuns | python/src/shutdown.rs:62-68 | With a second daemon registered, some run cancels the shutdown token while the first still dispatches, whenever they are registered |
| QuietShutdown.LateStillRuns | python/src/shutdown.rs:276-289 | With a daemon registered after the coordinator looked, some run cancels the shutdown token while it dispatches |
| QuietShutdown.QuietExactlyWhen | python/src/shutdown.rs:276-309 | All runs are quiet at shutdown exactly when the process starts no daemon, or one that it registers before the coordinator looks |
| DevChild.SchedulingListens | python/src/dev_supervisor.rs:421-437 | A generation that schedules still has a listening server, unless servers may fail on their own |
| DevChild.ChildStep | python/src/dev_supervisor.rs:395-438 | Every step of a child's main thread and of the shutdown machinery inside it keeps the child's invariant and only moves it forward |
| DevChild.TerminatedKeepsInv | python/src/dev_supervisor.rs:310-324 | A termination signal keeps the child's invariant, before and after its handler is installed |
| Generations.Supervisor.constructor | python/src/dev_supervisor.rs:69-76 | A new supervisor has no generation, counts from zero and is validly numbered |
| Generations.Supervisor.Promote | python/src/dev_supervisor.rs:211-213 | The candidate becomes the active generation, under a number above those of all generations held, which keeps the numbering valid |
| Generations.Supervisor.BeginRetire | python/src/dev_supervisor.rs:162-171 | The active generation moves to the retiring ones when it still runs and is dropped otherwise; no running generation is lost and the numbering stays valid |
| Generations.Supervisor.ReportExit | python/src/dev_supervisor.rs:263-268 | Dropping the exited active generation loses no running one and keeps the numbering valid |
| Generations.Supervisor.Reap | python/src/dev_supervisor.rs:270-280 | Exactly the exited generation leaves the retiring ones; no running one is lost and the numbers stay distinct |
| Generations.Supervisor.BeginStop | python/src/dev_supervisor.rs:109-116 | Stopping takes over exactly the generations that still run, in order |
| HandoverPort.NextKeepsInv | python/src/dev_supervisor.rs:141-234 | Every step of the supervisor, of any child and of the surroundings keeps the port invariant and the account of processes |
| HandoverPort.RunInv | python/src/dev_supervisor.rs:141-234 | They hold in every state of every run |
| HandoverRuns.BindTakesPort | python/src/dev_supervisor.rs:421-426 | In every run a server that binds gets the configured port exactly when it is free, then as the only process, and another port otherwise |
| HandoverRuns.ExclusiveOnOnePort | python/src/dev_supervisor.rs:141-234 | As long as the scheduling generations serve on the configured port and no server fails on its own, at most one schedules |
| HandoverRuns.NeverFallsBack | python/src/dev_supervisor.rs:421-426 | Without other programs on the port, no generation ever serves on another one, even when servers fail |
| HandoverRuns.FreePortByForeigner | python/src/dev_supervisor.rs:424-426 | A program that takes the port before the first server binds and leaves later makes that generation schedule on a fallback port while its own is free |
| HandoverRuns.FreePortByFault | python/src/repository/mod.rs:800-875 | A server that fails on its own frees the port while its generation keeps scheduling |
| HandoverRuns.ReloadOverlaps | python/src/dev_supervisor.rs:141-160 | From either of those, a reload brings a second daemon beside the first |
| HandoverRuns.ExclusiveExactlyWhen | python/src/dev_supervisor.rs:141-234 | At most one generation schedules, in every run, exactly when there is no daemon, or no foreign program takes the port and no server fails on its own |
| HandoverRuns.EveryProcessAccounted | python/src/dev_supervisor.rs:162-234 | Every running process is exactly one of: the active generation, a retiring one, the candidate, or one that `stop` holds |
| HandoverRuns.GenerationsNumbered | python/src/dev_supervisor.rs:188-234 | Numbers are distinct, below the counter, and the active one exceeds every retiring one, in every run |
| HandoverRuns.StopLeavesNothing | python/src/dev_supervisor.rs:109-137 | When `stop` returns, nothing that was ever spawned still runs |
| HandoverSteps.ReloadSignals | python/src/dev_supervisor.rs:141-171 | A reload signals the active generation exactly when it runs, touches no other process, and then waits for the port |
| HandoverSteps.StopSignals | python/src/dev_supervisor.rs:109-137 | `stop` signals exactly the running generations and waits for exactly those |
| HandoverSteps.GiveUpSignals | python/src/dev_supervisor.rs:213-234 | Giving up on a candidate signals that process alone and promotes nothing |
| HandoverSteps.KillEnds | python/src/dev_supervisor.rs:299-323 | Killing ends that process and touches no other |
| HandoverSteps.OutsideTouchesOne | python/src/dev_supervisor.rs:263-280 | A process that is signalled or crashes from outside changes alone, and the supervisor has yet to notice |
| HandoverSteps.RunEndsBySignal | python/src/dev_supervisor.rs:141-186 | `run` goes on through everything a reload does and ends only by an interrupt; a candidate seen serving becomes active and the loop resumes |
| HandoverSteps.StartReturns | python/src/dev_supervisor.rs:188-234 | `start` returns to its caller, `run` is entered only by calling it, and `stop` only by calling it and for good |
| HandoverProgress.ReloadCanReplace | python/src/dev_supervisor.rs:141-234 | In every reachable world with a booted active generation on the configured port whose shutdown can complete, a reload can replace it by a new serving generation |
| HandoverProgress.StopCanReturn | python/src/dev_supervisor.rs:109-137 | Once called, `stop` can always return |
| SupervisorSteps.Perform | python/src/dev_supervisor.rs:109-234 | Each step of the composed system changes the roster as the object's methods change its fields; a reload terminates the active generation exactly when it runs, `stop` exactly the running generations, and nothing else is terminated by them |
| SupervisorSteps.Follow | python/src/dev_supervisor.rs:61-137 | A new supervisor object taken through any run holds every running process in exactly one place, numbered in serving order, and none runs once it stopped |
| PartitionFilters.ColumnFiltersMeaning | python/rivers/io_handlers/_partition_sql.py:61-65 | An equality or IN accepts exactly the rows with one of the values in the column |
| PartitionFilters.DimensionsHold | python/rivers/io_handlers/_partition_sql.py:98-125 | The filters of a multi key accept exactly the rows that every dimension accepts, in whatever order they are sorted |
| PartitionPredicate.CollectDimValues | python/rivers/io_handlers/_partition_sql.py:249-258 | The loop collects, per dimension, the distinct values of all keys in order of first appearance |
| PartitionPredicate.ExpectedCount | python/rivers/io_handlers/_partition_sql.py:264-266 | The loop multiplies the numbers of values over all dimensions, in any order |
| PartitionPredicate.BuildFactored | python/rivers/io_handlers/_partition_sql.py:226-283 | The loops of the factored builder compute the specified predicate or error, which `PartitionMeaning.BuiltSelects` and `BuiltRefuses` explain |
| PartitionPredicate.BuildPredicate | python/rivers/io_handlers/_partition_sql.py:168-223 | So does the whole builder, across all its branches |
| CartesianProduct.CountedIffComplete | python/rivers/io_handlers/_partition_sql.py:249-283 | Distinct tuples over listed values are as many as the product counts exactly when they are all tuples, for any number of dimensions |
| CartesianProduct.CountedWithRepeats | python/rivers/io_handlers/_partition_sql.py:264-268 | When tuples repeat and the count is still right, some tuple is missing |
| PartitionSelection.CountedIffProduct | python/rivers/io_handlers/_partition_sql.py:249-283 | For distinct single-valued keys over the same dimensions the expected count is the number of keys exactly when the keys are the full Cartesian product |
| PartitionSelection.FactoredSelects | python/rivers/io_handlers/_partition_sql.py:275-283 | The conjunction of INs then accepts exactly the rows that some key accepts |
| PartitionSelection.MergedSelects | python/rivers/io_handlers/_partition_sql.py:199-204 | Single keys merged into one IN select exactly their rows |
| PartitionSelection.PredicateSelectsKeys | python/rivers/io_handlers/_partition_sql.py:168-223 | In every branch the built predicate exists exactly when the filters of the keys do, and accepts exactly the rows that some key's filters accept |
| PartitionExactness.RepeatsOverselect | python/rivers/io_handlers/_partition_sql.py:249-283 | Repeated keys that pass the count test make the factored form accept a row of no key |
| PartitionExactness.WindowsUnderselect | python/rivers/io_handlers/_partition_sql.py:77-85 | Several time windows in one dimension make it reject a row of a key, under a strict total order of the values |
| PartitionExactness.FactoringExactlyWhen | python/rivers/io_handlers/_partition_sql.py:226-283 | Single-valued keys over the same dimensions with a column each, each selecting some row, that pass the count test are selected exactly, for every row and every strict total order, if and only if they are distinct and no window dimension takes several values |
| PartitionCounterexamples.RepeatedKeys | python/rivers/io_handlers/_partition_sql.py:249-283 | A concrete family of repeated keys that over-selects |
| PartitionCounterexamples.MultiValuedKey | python/rivers/io_handlers/_partition_sql.py:249-283 | A concrete family with a key of two values that over-selects |
| PartitionCounterexamples.DifferentDimensions | python/rivers/io_handlers/_partition_sql.py:249-283 | A concrete family of keys with different dimensions that under-selects |
| PartitionCounterexamples.TwoWindows | python/rivers/io_handlers/_partition_sql.py:77-85 | Two values of a time-window dimension, the first with a window, the other with or without one, always under-select |
| SqlText.LiteralParses | python/rivers/io_handlers/_partition_sql.py:47-49 | A quoted value is read back as that value, whatever quotes it contains |
| SqlText.TextParses | python/rivers/io_handlers/_partition_sql.py:88-95 | Parsing the written text gives back the OR of ANDs of filters, with doubled-quote literals (section 5.3 of ISO/IEC 9075:1992) and AND binding tighter than OR (section 8.12 there) |
| SqlText.ConditionMeaning | python/rivers/io_handlers/_partition_sql.py:88-95 | The parsed condition accepts exactly the rows the filter structure accepts |
| PartitionMeaning.BuildPredicateText | python/rivers/io_handlers/_partition_sql.py:168-223 | The returned text, read as SQL, accepts exactly the rows of the keys' partitions, and exists exactly when every key can be expressed; an error names the fault of some key |
| PartitionText.BuiltWritable | python/rivers/io_handlers/_partition_sql.py:168-223 | With keys that have a dimension and plain column names the text always parses |
| PartitionText.TextSelectsKeys | python/rivers/io_handlers/_partition_sql.py:128-223 | The returned text, read as SQL, accepts exactly the rows that the filters of some key accept |
| PartitionMeaning.KeyFiltersSelect | python/rivers/io_handlers/_partition_sql.py:98-165 | The filters of a single or multi key accept exactly the rows whose columns lie in the window of the only value, or hold one of the values; an error says why a key has none |
| PartitionMeaning.FiltersSelect | python/rivers/io_handlers/_partition_sql.py:128-165 | One conjunction for each key, in order, accepting exactly its rows |
| PartitionMeaning.BuiltSelects | python/rivers/io_handlers/_partition_sql.py:168-223 | The built predicate accepts exactly the rows of some key's partition, said of keys, windows and columns alone |
| PartitionMeaning.BuiltRefuses | python/rivers/io_handlers/_partition_sql.py:168-283 | Every error of the builder is the fault of some key or of the missing expression |
| NodeExpansion.ExpandTasks | python/src/job.rs:242-250 | The loop adds the graph tasks of the declared nodes, each that is not there yet |
| NodeExpansion.ExpandCollects | python/src/job.rs:251-260 | The loop adds the collect steps whose mapped step is included when the walk meets them |
| NodeExpansion.ExpansionAddsOnce | python/src/job.rs:239-261 | The declared list stays a prefix and each extra node is added once and is new |
| NodeExpansion.WithTasksHolds | python/src/job.rs:242-250 | The result holds exactly the declared nodes and their graph tasks |
| NodeExpansion.UnchainedIncludes | python/src/job.rs:251-260 | Without a chain of new collect steps, exactly the collect steps over the base are added, for every walk |
| NodeExpansion.CollectsMeaning | python/src/job.rs:251-260 | In that case a step is added exactly when it collects, as a list or as a stream, over a step of the base |
| NodeExpansion.TasksInOrder | python/src/job.rs:242-250 | The tasks are added at their first mention, in the order of the nodes and of each node's tasks |
| NodeExpansion.OrderIrrelevantExactlyWhen | python/src/job.rs:251-260 | All walks of the hash map give the same node set exactly when no new collect step maps over another new collect step |
| AssetGraph.ReachesMirrored | rust/rivers-core/src/assets/graph.rs:204-212 | A node is upstream of another exactly as that one is downstream of it |
| AssetGraph.Traverse | rust/rivers-core/src/assets/graph.rs:188-202 | The search finds exactly the nodes at least one edge away, in either direction |
| ActionPlan.ForAction | rust/rivers-core/src/execution/plan.rs:149-202 | One step per distinct target in order of first mention, waiting, in target order, for exactly the targets it depends on along some dependency path (upstream first), that depend on it (downstream first), or none |
| ActionPlan.OrderingsMirror | rust/rivers-core/src/execution/plan.rs:180-187 | In the upstream-first plan one target waits for another exactly when in the downstream-first plan that one waits for it |
| ActionPlan.WaitsForDependency | rust/rivers-core/src/execution/plan.rs:180-187 | Along every single dependency between targets the dependent waits (upstream first) or is waited for (downstream first) |
| ActionPlan.WaitsForWhom | rust/rivers-core/src/execution/plan.rs:177-196 | A step waits for a node exactly when that is a target and the ordering's dependency path exists |
| ActionPlan.NeverStuckExactlyWhen | rust/rivers-core/src/execution/plan.rs:177-196 | Whatever part of an ordered plan is still pending, one of its steps waits for nothing pending, exactly when none of its targets lies on a cycle |
| ActionPlan.UnorderedNeverStuck | rust/rivers-core/src/execution/plan.rs:180-181 | An unordered plan never gets stuck |
| JobPlan.MissingEdges | rust/rivers-core/src/assets/graph.rs:242-265 | The missing dependencies are exactly the edges that leave the selection |
| JobPlan.CheckComplete | python/src/job.rs:276-313 | The check succeeds exactly when every dependency outside the job is in the repository and external, or incomplete dependencies are allowed and it only orders the node or has an io handler; an error names a dependency that is unknown, not allowed outside, or without a handler |
| JobPlan.BuildNodeMap | python/src/job.rs:326-358 | The node map holds exactly the job's own nodes and the dependencies taken for one of them, as they are in the repository |
| JobPlan.LoadsAvailable | python/src/job.rs:276-358 | In a valid job every dependency a node loads is in the job, or in the node map and external or with a handler |
| JobPlan.OutsidersNeeded | python/src/job.rs:337-356 | In a valid job a node from outside is in the node map only if external, or loaded by a job node through a handler |
| JobPlan.AgreeOrdering | python/src/job.rs:372-415 | Succeeds exactly when the first action of every target for the verb has one common ordering and a known retry policy or none; an error names an unknown target, a target without the verb, an unknown policy, or two targets with different orderings |
| JobPlan.Job.constructor | python/src/job.rs:122-143 | A declared job has no plan and no node map |
| JobPlan.Job.ValidateAndBuildPlan | python/src/job.rs:226-361 | Plans exactly the complete jobs over the expanded nodes; a failure reports an unknown node or an unacceptable dependency of this job and leaves plan and node map alone, but keeps the expansion |
| JobPlan.Job.ValidateAndBuildActionPlan | python/src/job.rs:366-437 | Plans an action run exactly when the targets agree, with their own nodes as node map; an error is justified in the same way |
| ActionEntries.CollectEntries | python/src/assets/class_form.rs:313-356 | Collects exactly the action attributes no more derived class overrides, under their verbs and in the order of their first declarations, and fails exactly for a marked function that is no classmethod or an inherited action behind an ordinary attribute, naming it |
| ActionResolution.FindListing | python/src/assets/class_form.rs:358-369 | The `actions` list in effect is that of the most derived class with one |
| ActionResolution.ReadListing | python/src/assets/class_form.rs:370-390 | Reading it succeeds exactly for action objects only, and keeps them all in order; each error has its own cause |
| ActionResolution.BuildEntries | python/src/assets/class_form.rs:408-442 | Fails exactly when the class a verb belongs to lists it and has it as another attribute, naming one, and else builds what the winning attributes declare |
| ActionResolution.CollectActions | python/src/assets/class_form.rs:313-444 | The whole resolution succeeds exactly for well-formed classes without such a clash; it builds, in order, the listed actions whose verb belongs to the class with the list, then the attributes whose verb belongs to their class and is not listed there, each as the object itself or wrapped with its settings and body; every error has its cause |
| ActionNearest.NearestDeclares | python/src/assets/class_form.rs:392-401 | The nearest class is the one that declares the verb while no more derived class does |
| ActionNearest.ClashesMeaning | python/src/assets/class_form.rs:413-424 | A clash is exactly an attribute and the first item listed for its verb in the one class the verb belongs to, which are not the same object |
| ActionVerbs.BuiltTimes | python/src/assets/class_form.rs:402-443 | Each verb is built as often as the nearest class lists it or, if it does not, has attributes for it |
| ActionVerbs.EveryVerbBuilt | python/src/assets/class_form.rs:402-443 | A verb is built exactly when the list in effect or a surviving attribute declares it |
| ActionVerbs.OnlyFromNearest | python/src/assets/class_form.rs:402-443 | Everything built comes from the nearest class declaring its verb |
| ActionVerbs.BuiltOnceExactlyWhen | python/src/assets/class_form.rs:402-443 | No verb is built twice exactly when each is declared once by the class it is taken from |
| ActionVerbs.OnceWhenDeclaredOnce | python/src/assets/class_form.rs:313-444 | When no class body and no list repeats a verb, each declared verb is built exactly once |
| ActionVerbs.BodyIsOwn | python/src/assets/class_form.rs:438-439 | The body looked up for a surviving attribute is its own, unless its name starts with two underscores |
| ActionVerbs.DunderBodyHidden | python/src/assets/class_form.rs:438-439 | For every such name some well-formed class gets another attribute's body |
| Streaming.CompletionQueue.constructor | python/src/completion_queue.rs:46-49 | A new channel is empty and connected, and nothing was sent |
| Streaming.CompletionQueue.Send | python/src/completion_queue.rs:35-42 | A key or the sentinel goes behind all that was sent before; what was sent stays received, seen or in the channel |
| Streaming.CompletionQueue.Disconnect | python/src/completion_queue.rs:18-23 | Losing the last sender loses nothing that was sent |
| Streaming.CompletionQueue.Next | python/src/completion_queue.rs:18-23 | Answers the next of the keys sent before the sentinel, and stops only when all of them were received |
| Streaming.ChannelConserves | python/src/completion_queue.rs:15-49 | In every interleaving what was sent is what was received, then the sentinel, then what is still in the channel |
| Streaming.ReceivesSent | python/src/completion_queue.rs:73-79 | The iteration yields a prefix of the keys sent before the sentinel, in channel order, and all of them when it ends |
| Streaming.Follow | python/src/completion_queue.rs:15-49 | A new queue object taken through any interleaving by its methods is in the state the interleaving leads to, with everything sent accounted for |
| Streaming.Iterate | python/src/completion_queue.rs:73-79 | Iterating the object to its end gives exactly the keys sent before the sentinel, in order |
| Streaming.StreamGenerator | python/rivers/_fan_out_helpers.py:11-12 | Yields the result of each arriving key in order, up to the first key without one |
| Streaming.OrderedStreamGenerator | python/rivers/_fan_out_helpers.py:25-35 | Yields exactly the results below the least index that has not arrived, in index order; the final flush yields nothing |
| Streaming.LeastMissingGrows | python/rivers/_fan_out_helpers.py:27-31 | A later arrival never takes back what was yielded |
| Streaming.PermutationLeavesNoGap | python/rivers/_fan_out_helpers.py:25-35 | When the keys are a permutation of 0 to n-1, nothing is missing below n |
| Streaming.CollectsEveryResult | python/rivers/_fan_out_helpers.py:4-35 | Once all n instances were sent, in any order and interleaving, both generators yield the same n results |
| GilThreads.Registry.Track | python/src/gil_threads.rs:42-44 | Drops only handles seen finished, keeps the others in order and tracks the new worker once |
| GilThreads.Registry.TakeAll | python/src/gil_threads.rs:50 | Hands over each tracked worker that was neither reaped nor handed out before, once, and none of them ever again |
| GilThreads.RunKeepsInv | python/src/gil_threads.rs:33-56 | In every interleaving an unfinished worker whose spawn returned is in the registry or in a list some drain is joining; every tracked worker is in one such list, once |
| GilThreads.DrainJoinsSpawned | python/src/gil_threads.rs:49-56 | A drain returns with every worker finished that was spawned before it, except those another drain was joining |
| GilThreads.LoneDrainWaitsForAll | python/src/gil_threads.rs:49-56 | A drain that starts after all spawns returned, with no other drain in progress, returns only once every worker has finished |
| GilThreads.WaitsExactlyWhen | python/src/gil_threads.rs:49-56 | A drain waits for all workers spawned before it exactly when no other drain is still joining an unfinished one |
| GilThreads.DrainedInTheEnd | python/src/gil_threads.rs:33-56 | Any workers can be started, tracked and drained; then all are finished and neither the registry nor a drain holds one |
| GilThreads.Perform | python/src/gil_threads.rs:33-56 | Each step of the state machine changes the registry as the object's methods do, and a drain gets the list they hand over |
| GilThreads.Follow | python/src/gil_threads.rs:33-56 | A new registry object taken through any interleaving holds, with the running drains, every unfinished worker whose spawn returned |
| SlingLog.FollowLog | python/rivers/integrations/sling.py:322-349 | Materializes each output at the first success of its own stream, with the rows reported in between, in log order |
| SlingLog.Replicate | python/rivers/integrations/sling.py:283-361 | Yields, in log order, exactly the outputs that are the last selected for their stream and whose stream start is followed by a success with no start or end in between, at the first such success and with the stream, last row count and last object reported; on exit 0 then the other selected outputs in order with their stream alone; a non-zero exit raises after the log's part, an unknown output fails before the run |
| SlingLog.OutputsOfMeaning | python/rivers/integrations/sling.py:308-311 | A stream belongs to the last selected output that has it |
| SlingLog.LogYieldsMeaning | python/rivers/integrations/sling.py:322-349 | Following the log yields what the selection, the streams and the events alone call for |
| SlingLog.MetadataMeaning | python/rivers/integrations/sling.py:332-339 | The metadata of a stream run are its stream, the last row count and the last object named |
| SlingLog.YieldedExactlyWhen | python/rivers/integrations/sling.py:332-349 | The log yields an output exactly when a start of its stream is followed by a success with no start, success or failure in between |
| SlingLog.LogYieldsOnce | python/rivers/integrations/sling.py:340-347 | The log yields no output twice |
| SlingLog.CompletedYieldsSelection | python/rivers/integrations/sling.py:356-361 | A completed run yields exactly the selected outputs |
| SlingLog.CompletedOnceExactlyWhen | python/rivers/integrations/sling.py:356-361 | It yields each once exactly when the selection does not name twice an output of which no stream succeeds in the log |
| SlingLog.SilentLogRepeats | python/rivers/integrations/sling.py:356-361 | With an output named twice and an empty log, it is yielded twice |
| SlingLog.OnceForEveryLogExactlyWhen | python/rivers/integrations/sling.py:283-361 | Every log yields each output once exactly when the selection names none twice |
| Masking.Mask | python/rivers/integrations/sling.py:458-461 | Replaces every non-empty secret in turn |
| Masking.FirstReplaced | python/rivers/integrations/sling.py:458-461 | Masking a secret replaces its first occurrence and goes on after it |
| Masking.ShownAsItIs | python/rivers/integrations/sling.py:458-461 | A message in which no secret occurs is shown as it is |
| Masking.MaskedInTurn | python/rivers/integrations/sling.py:458-461 | One secret after the other is masked, empty ones not at all |
| Masking.SecretHidden | python/rivers/integrations/sling.py:458-461 | A maskable secret, as any secret without a star, does not occur in the result, whatever the message, the other secrets and their overlaps |
| Masking.StarFreeMaskable | python/rivers/integrations/sling.py:458-461 | Every non-empty secret without a star is maskable |
| Masking.HiddenExactlyWhen | python/rivers/integrations/sling.py:458-461 | A secret is hidden in every message and beside every other secret exactly when it neither starts nor ends with a star nor contains three in a row |
| SlingSecrets.SubstituteCollects | python/rivers/integrations/sling.py:427-433 | Substitution succeeds exactly when the variables referred to are set, and collects exactly their values |
| SlingSecrets.ExpandCollects | python/rivers/integrations/sling.py:416-438 | Expansion collects exactly the secret strings and variable values inside the properties, at any depth |
| SlingSecrets.ExpandSucceedsExactlyWhen | python/rivers/integrations/sling.py:416-438 | It fails exactly for an unset variable, at any depth |
| SlingSecrets.ExpandBlames | python/rivers/integrations/sling.py:416-438 | The error names a variable that is not set and that a value inside refers to |
| SecretsMeaning.ReferenceExactlyWhen | python/rivers/integrations/sling.py:70 | A reference is exactly a non-empty word between `${` and `}` |
| SecretsMeaning.ReferencesExactlyWhen | python/rivers/integrations/sling.py:427-433 | The variables referred to are those with a reference anywhere in the text |
| SecretsMeaning.WithoutReference | python/rivers/integrations/sling.py:427-433 | A text without a reference stays as it is |
| SecretsMeaning.FirstReference | python/rivers/integrations/sling.py:427-433 | The value takes the place of the first reference and the text after it follows; an unset variable ends it |
| SecretsMeaning.ExpandBecomes | python/rivers/integrations/sling.py:416-438 | Expansion keeps lists, dictionaries and their keys and replaces in every text, secret or not |
| SecretsMeaning.VariableComesFrom | python/rivers/integrations/sling.py:370-382 | A variable of sling's environment holds the expanded properties of the last connection of its name, else the inherited value |
| SlingSecrets.SlingEnvironment | python/rivers/integrations/sling.py:363-383 | Every connection lands in its own variable, later ones winning, and the secrets of all of them are collected; it fails exactly for an unset variable, naming the first such connection |
| SlingSecrets.RevealedHidden | python/rivers/integrations/sling.py:416-461 | No masked message shows a maskable secret that a connection reveals, at any depth |
| StorageKeys.KeyRead | python/rivers/io_handlers/memory.py:12-45 | The in-memory key of a location whose names and values keep clear of the separators can be read back |
| StorageKeys.KeysInjective | python/rivers/io_handlers/pickle.py:30-41 | Such locations never share a key, in memory or as pickles under any prefix |
| StorageKeys.SuffixIgnoresInsertion | python/rivers/io_handlers/memory.py:24-25 | The suffix of a multi key does not depend on the order its dimensions were inserted in |
| StorageKeys.SlashInAsset | python/rivers/io_handlers/memory.py:40-45 | A slash in an asset name makes its partitions collide with those of another asset, in either layout |
| StorageKeys.SlashInWholeAsset | python/rivers/io_handlers/pickle.py:30-41 | It makes a whole asset collide with a partition, in memory and as pickles |
| StorageKeys.SlashInValue | python/rivers/io_handlers/memory.py:22-23 | A slash in a value makes one value collide with two |
| StorageKeys.EqualsInValue | python/rivers/io_handlers/memory.py:22-25 | An equals sign in the first value makes a single key collide with a multi key |
| StorageKeys.BarInValue | python/rivers/io_handlers/memory.py:24-25 | A bar in a value makes one value of a dimension collide with two |
| StorageKeys.EqualsInDimension | python/rivers/io_handlers/memory.py:24-25 | An equals sign in a dimension's name makes it collide with a value |
| StorageKeys.SlashInDimension | python/rivers/io_handlers/memory.py:24-25 | A slash in a dimension's name makes a multi key collide with a single key |
| StorageKeys.NoValues | python/rivers/io_handlers/memory.py:22-23 | A key without values collides with one empty value |
| StorageKeys.SlashInDimensionValue | python/rivers/io_handlers/memory.py:24-25 | A slash in a value of a dimension makes it collide with a further dimension |
| StorageKeys.NoValuesInDimension | python/rivers/io_handlers/memory.py:24-25 | A dimension without values collides with one empty value |
| StorageKeys.NoDimensions | python/rivers/io_handlers/memory.py:24-25 | A multi key without dimensions collides with a single empty value |
| StorageKeys.KeySetHasNoSuffix | python/rivers/io_handlers/memory.py:26 | A set of keys has no suffix and collides with the whole asset |
| StorageHandlers.Handler.constructor | python/rivers/io_handlers/memory.py:37 | A new handler is the empty map from assets and partitions |
| StorageHandlers.Handler.HandleOutput | python/rivers/io_handlers/memory.py:47-53 | Writing updates the map of assets and partitions at that location and nowhere else, as long as locations are plain |
| StorageHandlers.Handler.LoadInput | python/rivers/io_handlers/pickle.py:61-67 | Loading answers the last value written for exactly that asset and partition, or the lookup error |
| StorageHandlers.WriteThenLoad | python/rivers/io_handlers/memory.py:47-58 | A new handler, any writes and a load: it answers the last value written for exactly that asset and partition |

## Left out

- Starting processes, sockets, tokio and the server assembly: they appear as events such as a port taken, a port bound, a process ended.
- The bodies of the daemon and of the gRPC server: only when they stop scheduling, stop listening and resolve.
- Waiting for a child never reports an error of its own; spawning either yields a process or fails.
- The checks within one polling round of the supervisor are independent observations, so the model allows more orders than the code does.
- Signals that arrive before they are received are merged, and a termination signal before the handler is installed ends the process.
- The server's handle is registered after it is bound; the code registers it while the server binds and goes on only then, and nothing looks at the handle before. A port that a server released is not bound again by the same server.
- The report the watchdog prints, and time: timeouts are events that may happen whenever the wait is in progress.
- The contents of a materializing execution plan (grouping of multi-asset outputs, fan-out kinds): the plan is the node set it is built over.
- JobPlan.Job.ValidateAndBuildPlan: does not fix which of several justified errors is reported, because it depends on the walk of a hash set.
- Python's `strftime` and time-window arithmetic: a window is an optional half-open pair of texts.
- The metadata dictionary of a sling materialization is a value: rows logged after the success but before the next start do not change it; durations are left out.
- PartitionText.TextSelectsKeys: asks for plain column names (letters, digits and underscores, no leading digit, not AND, OR or IN) and at least one key, because the code writes column names unquoted and an empty list of keys as `IN ()`. The other reserved words of SQL are not told apart.
- An unset variable ends `replicate` before sling starts; `SlingSecrets.SlingEnvironment` covers it, `SlingLog.Replicate` starts after it.
- Sling's log lines come classified; the regular expressions that classify them are not modelled, nor is `_for_outputs`, which only disables streams.
- Which characters count as word characters in a `${VAR}` reference is a parameter; `SecretsMeaning` asks only that the dollar sign and the closing brace are none.
- Pickling itself, and the metadata the handlers record.
- StorageKeys.KeysInjective: asks for slash-free names and values, no equals sign in dimension names and in the first value of a single key, no bar in the values of a multi key, no empty lists and no key sets, because each of these does collide, as the collision lemmas show.
- The options passed on to a built action (outcome, concurrency, partitioning) and the error texts.
- Layered resource configuration (`lay_over`): a short recursion that would only add easy members.
- The other integrations, the CLI, the user interface and the storage backend.
