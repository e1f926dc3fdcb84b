# dag_exec in Dafny

A model of the `dag_exec` crate and proofs about it. The crate evaluates a dependency graph whose nodes are sources (values) and tasks (functions of the values of other nodes). A request names some keys; only what these keys depend on is evaluated, either by a sequential loop in Kahn order or by a scheduler thread with a bounded pool of worker threads. An optional observer records the run and turns it into a trace. Two example programs build hash trees as graphs, and one of them makes and checks inclusion proofs.

`dafny verify dfyconfig.toml` checks the project.

## What is modelled

- `Graph.dfy`: the compiled graph, its meaning, paths, needed sets and cycles. Builders accept cyclic graphs, so the meaning of a node is the least fixed point of evaluation rounds; it is undefined behind a cycle or behind a failing task.
- `Kahn.dfy`, `Outcome.dfy`: the invariant of Kahn's algorithm over a needed subgraph, and what it says when work runs out.
- `Common.dfy`: marking, in-degree tables and output lookup as the loops of the code.
- `Observer.dfy`, `Trace.dfy`: the trace observer, the invariant that makes its start order topological, and trace finalisation as a longest-path recurrence.
- `State.dfy`: the tables and the ready queue both executors keep in local variables, as a class with the steps they have in common.
- `Fifo.dfy`, `Sequential.dfy`: the sequential executor and its start order, which depends on the graph and the needed set alone.
- `Calls.dfy`, `Pool.dfy`, `Rotation.dfy`, `Schedule.dfy`, `Parallel.dfy`: the worker pool, the round-robin order of its use, and the scheduler. Channels are atomic FIFO sequences. Workers take any number of steps in any order before every `try_send`, while the scheduler waits in `recv`, after a result has arrived and during shutdown, so each theorem about a run is about every interleaving.
- `Executor.dfy`: the entry points and the agreement of the two executors.
- `Conservation.dfy`: where every node is at each scheduler step, and the counters.
- `Builder.dfy`: the graph builder.
- `Merkle.dfy`: hash trees, the binary proof format, its encoder and verifier, and the ancestors of a leaf; `MerkleProof.dfy`: what the verifier accepts. The node hash is an arbitrary function with 32-byte results; nothing is assumed about it, so every equivalence about acceptance says "and here is no collision".
- `KeyedGraph.dfy`, `TreeGraph.dfy`, `MerkleDag.dfy`, `RollupDag.dfy`, `RollupRequest.dfy`, `RollupRoots.dfy`, `RollupPosition.dfy`: the example graphs, what their keys mean, what a pruned request needs and costs, and the inclusion proof that is itself a node of the graph. The three tree-building loops of the examples are one method, `TreeGraph.AddLevels`, with the key function as parameter.

Task functions are arbitrary deterministic total functions from argument sequences to a value or an error. The clock is an arbitrary non-decreasing one. Key strings are datatypes. `usize` is 64 bits wide where that matters: saturating cap arithmetic, and shifts, whose amount is taken modulo 64. Both executors always drive the trace observer; the no-op observer of untraced runs is the same run with the record ignored.

## Where the code departs from its promises

The tests compare the two executors as equals (`tests/parallel.rs:26-46`), and the comment at `src/exec/parallel.rs:272` reads the exit with nothing in flight as a cycle. Neither holds for one family of requests: when every needed node is free of dependencies, the last one in id order is a source, and there is no needed task or `max_in_flight` is 1. Then the dispatch loop finishes the last needed node itself with nothing in flight, the test at `src/exec/parallel.rs:271` does not look at `processed` again, and every parallel run returns `Cycle` with an empty list, while the sequential run succeeds. `Executors.ExecutorsAgree` shows that, up to which of several failing tasks is named, this is the only disagreement, and exactly when it happens, `Executors.LoneSourceExitsEarly` is a concrete request, and `Executors.EarlyExitOnRequest` states the condition on the requested nodes alone. The model follows the code.

The proof verifier gets the root and the proof but not the height of the tree, and the format does not separate leaves from inner nodes. So an accepted proof need not carry a leaf of the tree: `MerkleProofs.AcceptedWithoutLeaf` is a concrete one. What acceptance does mean is stated for every proof height by `MerkleProofs.AcceptedExactly`. A caller who wants the leaf field to be the tree leaf at the index has to compare two fields before relying on the verdict: the height byte with the height of the tree, and the index with 2^height, because the index is only ever read bit by bit (`MerkleProofs.IndexBeyondTree`). `MerkleProofs.CallerCheckIsExact` shows that these two checks suffice and that for every height and index failing one of them there is a tree and an accepted proof that names the wrong leaf or none (`MerkleProofs.Misnamed`).

The proof node of the rollup graph stores the position in 32 bits, so larger positions are truncated (`examples/rollup.rs:383`). `RollupPositions.PositionLimitIsExact` shows that the proof is accepted whatever the transactions and hashes are exactly for positions below 2^32, and `RollupPositions.FarTargetRejected` gives a rejecting setup for every larger one. For one given setup `RollupRequest.TargetProofAccepted` states the condition: leaf and path siblings are those of the truncated position, or proof and tree collide.

The crate's own README says that `max_in_flight` bounds queued and running work; in the code it bounds queued, running and finished but unread work, which is what `Conservation.CountersExact` states.

## Model

| member | source | states |
|---|---|---|
| `Executors.ExecutorsAgree` | src/exec/parallel.rs:204-305 | any parallel run and the sequential run of one request, under an accepted configuration, agree on unknown keys, on whether a task failure is reported, on the cycle report and on the whole value table; the only exception is the early exit, where the parallel run reports an empty cycle and the sequential run succeeds, and it happens if and only if `EarlyExit` holds |
| `Executors.LoneSourceExitsEarly` | src/exec/parallel.rs:271-281 | the counterexample: requesting a single source succeeds sequentially and every parallel run returns a cycle with an empty list |
| `Executors.EarlyExitOnRequest` | src/exec/parallel.rs:226-281 | the early exit can be decided on the requested nodes before the run: all of them without dependencies, the last in id order a source, and no task among them or `max_in_flight == 1` |
| `Executors.DependentsPreventEarlyExit` | src/exec/parallel.rs:271-281 | if every needed source has a needed dependent there is no early exit |
| `Executors.EarlyExitIsAcyclic` | src/exec/parallel.rs:271-281 | a request that exits early contains no cycle, so the empty report is wrong and never hides one |
| `Executors.FailureIsGenuine` | src/exec/parallel.rs:284-296 | a task failure is reported if and only if some needed task has all dependency values and errs on them, and the report carries the key and error of such a task |
| `Executors.ReportIsExact` | src/exec/sequential.rs:90-98 | a needed node is in the cycle report if and only if it reaches a cycle through dependencies |
| `Executors.ReportInOrder` | src/exec/sequential.rs:90-98 | every cycle report of either executor is the list of keys of a strictly ascending id sequence whose members are exactly the needed nodes that reach a cycle: in id order, without repeats |
| `Parallel.RunWithObserver` | src/exec/parallel.rs:144-306 | for every interleaving of workers and scheduler: the argument checks in order, then exactly one of genuine failure, exact cycle report, early exit, or the full value table with nothing outside the needed set; the calls made are those of needed tasks, each once, with the dependency values in order; on every exit all dispatched tasks have been called, the record shows worker w for node i if and only if w called it, and the tasks were handed to the workers round robin; on success the trace record is complete |
| `Sequential.Execute` | src/exec/sequential.rs:20-101 | the same classification without the early exit, the same statement about calls, a complete trace record; of several failing tasks the one reported is the first in start order; on every exit the nodes started are those of the start order, and the calls are its tasks in that order; the recorded width is the largest queue length; a rejected request starts and calls nothing |
| `Sequential.SequentialDeterministic` | src/exec/sequential.rs:20-101 | a request has exactly one sequential result |
| `Sequential.SequencedUnique` | src/exec/sequential.rs:52-88 | a request has exactly one sequential run: the same nodes are started and the same calls made, arguments included, in the same order, also when the run fails or stops at a cycle |
| `Fifo.SameOpening` | src/exec/sequential.rs:35-48 | graph and needed set determine dependents lists, in-degrees and the seeded queue |
| `Fifo.StartOrderUnique` | src/exec/sequential.rs:52-88 | graph and needed set determine which nodes a sequential run starts and in which order, up to the failing task or the end of the queue |
| `Fifo.PeakWidthUnique` | src/trace.rs:141-146 | the frontier width of a sequential run, the largest length the queue reaches, is determined by graph and needed set |
| `Fifo.ReleasedInOrder` | src/exec/parallel.rs:133-140 | releasing the dependents of a node decrements every in-degree once per occurrence and appends the nodes that become ready at the end of the queue, in id order and without repeats |
| `Fifo.TasksOfConcat` | src/exec/sequential.rs:56-61 | the tasks of an order keep that order: those of a concatenation are those of its parts, one after the other |
| `Fifo.FirstFailureUnique` | src/exec/sequential.rs:52-73 | the start order does not depend on what task functions return, so there is at most one first failing task |
| `Executors.RunSequential` | src/exec/sequential.rs:104-114 | delivers exactly the requested keys with the meanings of their nodes, or the error of the run; the call log obeys the calls specification and is the one the start order fixes |
| `Executors.RunParallel` | src/exec/parallel.rs:308-320 | delivers exactly the requested keys with the meanings of their nodes, or the error of the run; the call log obeys the calls specification |
| `Executors.RunSequentialTraced` | src/exec/sequential.rs:117-131 | as the untraced run, plus a trace that satisfies the trace specification and lists the nodes in the start order the request fixes, the calls being its tasks in that order; its frontier width is the largest queue length of that run, attained and maximal |
| `Executors.RunParallelTraced` | src/exec/parallel.rs:323-339 | as the untraced run, plus a trace that satisfies the trace specification, reports every call with the worker that made it, and whose tasks were handed out round robin |
| `Executors.WorkersInTurn` | src/exec/parallel.rs:100-124 | of the first max_workers * worker_queue_cap tasks of a parallel trace the j-th carries worker id j modulo max_workers, under every interleaving |
| `Executors.CallersFromRecord` | src/exec/parallel.rs:213-216 | the worker id in the report is that of the worker that called the task |
| `Executors.TableAnswers` | src/exec/common.rs:66-86 | after a completed run every requested key has a value in the table, and it is the meaning of its node |
| `Executors.Lookup` | src/exec/common.rs:66-86 | collecting the outputs of a completed run cannot fail and yields exactly the requested keys |
| `Graph.MeaningFixedPoint` | src/exec/sequential.rs:56-76 | a source means its value, a task means what its function returns on the meanings of its dependencies; this holds on cyclic graphs too, where the meaning is the least fixed point of evaluation rounds |
| `Graph.MeaningApplies` | src/exec/sequential.rs:61-75 | with one argument per dependency position, in order, a task means what its function returns on them, success or error |
| `Graph.TableMonotone` | src/exec/sequential.rs:56-76 | what an evaluation round has determined never changes in later rounds |
| `Graph.TableBelowMeaning` | src/exec/sequential.rs:56-76 | every evaluation round agrees with the meaning on what it knows |
| `Graph.UndefinedIffReachesCycle` | src/exec/sequential.rs:90-98 | in a dependency-closed set without failing task, the nodes without a value are exactly those that reach a cycle |
| `Graph.KnownNotBehindCycle` | src/exec/sequential.rs:90-98 | a node that has an outcome cannot reach a cycle |
| `Graph.WalkToCycle` | src/exec/sequential.rs:90-98 | from a node without outcome, following dependencies without outcome closes a cycle |
| `Graph.ReachStaysInside` | src/exec/common.rs:30-38 | nothing outside a dependency-closed set is reached from inside it |
| `Graph.NeededIsClosed` | src/exec/common.rs:30-38 | the needed set contains the dependencies of its members |
| `Common.MarkNeeded` | src/exec/common.rs:12-41 | terminates on cyclic graphs and marks exactly the nodes reachable from the requested keys, or fails with the first unknown key |
| `Common.PushOutputs` | src/exec/common.rs:22-28 | collects the ids of the requested keys, or fails with a requested key that the graph does not know and before which all are known |
| `Outcomes.FirstUnknownNamed` | src/exec/common.rs:22-28 | the key both executors report as missing is the first requested one that the graph does not know |
| `Common.MarkedIsReachable` | src/exec/common.rs:30-40 | with the stack empty, the marked nodes are exactly the reachable ones |
| `Common.BuildKahnMetadata` | src/exec/common.rs:43-64 | `dependents[d]` names every needed node once per dependency position on d, in id order; the in-degree of a needed node is its number of dependency positions, repeats included; the count is the size of the needed set |
| `Common.FilledIsMetadata` | src/exec/common.rs:52-61 | the filled tables count dependency positions exactly |
| `Common.CollectOutputs` | src/exec/common.rs:66-86 | all requested keys with the values of the table, or the first requested key that has none |
| `Common.Remaining` | src/exec/parallel.rs:273-278 | the keys of exactly the needed nodes with a positive in-degree, for a strictly ascending sequence of ids |
| `Kahn.SeedKeeps` | src/exec/sequential.rs:41-48 | the seeding establishes the Kahn invariant: in-degrees count unreleased positions, the frontier is exactly the released nodes without value |
| `Kahn.FrontierHasArguments` | src/exec/sequential.rs:61-69 | a frontier node finds all its arguments, they are the meanings of its dependencies, and its own meaning is what its function returns on them, so the missing-dependency error is unreachable |
| `Kahn.StoreKeeps` | src/exec/sequential.rs:57-76 | writing the meaning of a frontier node keeps the invariant and leaves one owed decrement per dependent position |
| `Kahn.ReleaseKeeps` | src/exec/parallel.rs:133-140 | a decrement never underflows, and the dependent joins the frontier exactly when its last position is released |
| `Kahn.MissingAfter` | src/exec/common.rs:57-60 | giving a node its value settles exactly the dependency positions that name it, repeats included |
| `Kahn.FrontierFits` | src/exec/sequential.rs:50-53 | values and frontier together never exceed the needed set, and when the values fill it nothing is left |
| `Kahn.FrontierIncomparable` | src/exec/sequential.rs:81-87 | no frontier node depends on another, directly or through any chain |
| `Kahn.KnownMeansDone` | src/exec/sequential.rs:52-88 | evaluation that goes on wherever dependencies are done leaves no node with an outcome behind |
| `Kahn.StuckTable` | src/exec/sequential.rs:90-98 | with an empty frontier the value table is the meaning on the needed set and no needed task fails |
| `Outcomes.StuckCycles` | src/exec/sequential.rs:90-98 | with an empty frontier a positive in-degree is the same as reaching a cycle |
| `Outcomes.StuckExit` | src/exec/sequential.rs:90-98 | out of work with nodes left over: a cycle exists, the report is non-empty and lists exactly the needed nodes that reach one, by strictly ascending ids |
| `Outcomes.KeysInOrder` | src/exec/sequential.rs:91-97 | the list of keys of a set of nodes belongs to a strictly ascending id sequence with exactly the members of the set |
| `Outcomes.CompleteExit` | src/exec/sequential.rs:100 | every needed node done: no failure, no cycle, the table is the meaning, all in-degrees are zero |
| `Observer.TraceObserver.constructor` | src/trace.rs:64-74 | an empty record |
| `Observer.TraceObserver.MarkReady` | src/trace.rs:141-146 | the ready time becomes the current time if there was none; the width becomes the larger of itself and the reported one; nothing else changes |
| `Observer.TraceObserver.MarkStart` | src/trace.rs:148-156 | the start time becomes the current time if there was none, and only then the node is appended to the order; the worker id is kept if there was one; nothing else changes |
| `Observer.TraceObserver.MarkFinish` | src/trace.rs:158-162 | the finish time becomes the current time if there was none; nothing else changes |
| `Observer.ReadyIsAntichain` | src/trace.rs:141-146 | the ready queue is an antichain of needed nodes as large as its length, so the recorded width never exceeds the largest antichain |
| `Observer.ReadyKeeps` | src/trace.rs:141-146 | a release keeps the trace invariant |
| `Observer.StartKeeps` | src/trace.rs:148-156 | starting a frontier node keeps the order topological, in positions and in time: every dependency is listed and had finished before |
| `Observer.FinishKeeps` | src/trace.rs:158-162 | finishing a started node keeps the trace invariant |
| `Tracing.CompleteRunRecords` | src/trace.rs:89-92 | after a completed run the order is a permutation of exactly the needed nodes, topological, with ready <= started <= finished, and worker ids for exactly the tasks of a parallel run |
| `Tracing.LongestExtends` | src/trace.rs:101-109 | the longest chain ending in a node extends the longest chain ending in one of its dependencies |
| `Tracing.TotalConcat` | src/trace.rs:97-110 | the duration of a chain is the sum over its nodes |
| `Tracing.PathsNode` | src/trace.rs:97-109 | at each node of the start order the recurrence yields the longest chain ending there, and that chain fits into the finish time of the node |
| `Tracing.CriticalIsLongest` | src/trace.rs:110 | the largest recurrence value is the longest of all dependency chains in the needed subgraph |
| `Tracing.FitsWallTime` | src/trace.rs:84-110 | the critical path never exceeds the time elapsed |
| `Tracing.EntriesInOrder` | src/trace.rs:89-128 | every dependency of a reported node is reported earlier and had finished before it started |
| `Tracing.ParentPath` | src/trace.rs:101-107 | the largest chain value among the needed dependencies, zero if there are none |
| `Tracing.Finalize` | src/trace.rs:80-137 | for the record of a completed run: one entry per needed node, consistent with the graph and ordered in time; `executed_nodes` is the needed count; `critical_path_time` is the largest total run duration over all dependency chains and is at most `wall_time`; the frontier width is that of an antichain; all marks are reported as recorded, in start order; for every record `wall_time` is the clock reading taken at the start |
| `ExecState.KahnState.Seed` | src/exec/parallel.rs:175-183 | queues the needed nodes without dependencies in id order and establishes the core invariant |
| `ExecState.SeedsAreAntichain` | src/exec/parallel.rs:175-183 | the seeds are pairwise independent, so the width reported for the k-th of them is that of an antichain |
| `ExecState.KahnState.PopFront` | src/exec/parallel.rs:226-228 | takes the oldest ready node; nothing else changes |
| `ExecState.KahnState.Arguments` | src/exec/parallel.rs:240-247 | the argument vector is complete and holds the meanings of the dependencies, in order, repeats included |
| `ExecState.KahnState.Start` | src/exec/parallel.rs:215 | marks a held node started and appends it to the order; the invariant is kept |
| `ExecState.KahnState.Store` | src/exec/parallel.rs:298-300 | the slot was empty, receives the meaning of the node, and no other slot changes |
| `ExecState.KahnState.Finish` | src/exec/parallel.rs:289-290 | marks a started node finished, not before the call of this method, and no other; the invariant is kept |
| `ExecState.KahnState.ReleaseOne` | src/exec/parallel.rs:133-140 | one decrement of a dependent: it never underflows and queues the dependent exactly when it reaches zero; the recorded frontier width becomes the larger of itself and the queue length |
| `ExecState.KahnState.ReleaseDependents` | src/exec/parallel.rs:126-141 | every owed decrement is applied in list order, and only nodes with dependencies are appended to the queue; the recorded frontier width becomes the larger of itself and the queue length |
| `ExecState.KahnState.Complete` | src/exec/parallel.rs:298-302 | value written, finish marked, dependents released: the core invariant holds again with exactly that node done |
| `ExecState.KahnState.CompleteSource` | src/exec/parallel.rs:231-237 | a source is started, valued, finished and released in one go, and no worker is recorded for it |
| `ExecState.Prepare` | src/exec/parallel.rs:170-183 | metadata, empty value table and seeded queue satisfy the core invariant and open the start order |
| `ExecState.CoreComplete` | src/exec/parallel.rs:305 | values that fill the needed set are the meanings, and the trace record is complete |
| `ExecState.CoreFits` | src/exec/parallel.rs:204-206 | values, queue, held and running nodes together never exceed the needed set |
| `ExecState.PopOrder` | src/exec/parallel.rs:226-228 | nodes leave the queue dependency-free first in id order, then the others; the early exit depends on it |
| `Sequential.Compute` | src/exec/sequential.rs:57-76 | a source yields its value, a task is called once on the meanings of its dependencies, at a time when it is marked started and not yet finished; a failure is genuine and its call is logged |
| `Sequential.StartNext` | src/exec/sequential.rs:52-75 | the oldest ready node is started next in the order and evaluated, and its call, if it is a task, is the next one in the log |
| `Sequential.EvaluateNext` | src/exec/sequential.rs:52-87 | one iteration finishes exactly one more node and leaves queue, order and calls where the start order says, or ends in a genuine failure of the next node in start order; nothing is left half done |
| `Sequential.EvaluateAll` | src/exec/sequential.rs:52-88 | the loop ends with an empty queue or with the first failing task in start order; order and calls are those the start order fixes |
| `Sequential.ExecuteNeeded` | src/exec/sequential.rs:35-100 | outcome, calls and record of a run over a marked, dependency-closed set |
| `Sequential.FinishedCalls` | src/exec/sequential.rs:61-75 | a run that goes on until nothing is ready calls every evaluable needed task exactly once and nothing else |
| `Sequential.FailedCalls` | src/exec/sequential.rs:70-73 | a run cut short by a failure has called needed tasks only, each at most once |
| `Pool.WorkerPool.constructor` | src/exec/parallel.rs:48-80 | empty queues, idle workers, open channels |
| `Pool.WorkerPool.Call` | src/exec/parallel.rs:63-70 | the worker runs the task in its slot and sends the result; what was sent to whom does not change |
| `Pool.WorkerPool.Interfere` | src/exec/parallel.rs:61-71 | any number of steps of any workers in any order keep the pool invariant and change nothing that the scheduler has sent or read |
| `Pool.WorkerPool.TrySend` | src/exec/parallel.rs:112-119 | accepted tasks go to the end of that worker's line; it refuses exactly when the queue is full, and then the worker still has at least `worker_queue_cap` tasks outstanding; the attempt is logged with its outcome |
| `Pool.WorkerPool.Recv` | src/exec/parallel.rs:284-286 | as long as something is outstanding the wait ends, whichever workers move; the result is the oldest unread one, and that of the oldest outstanding task of its sender |
| `Pool.OwesMeansCanStep` | src/exec/parallel.rs:61-71 | no deadlock: without unread result, a worker that owes one can take a step |
| `Pool.WorkUpdate` | src/exec/parallel.rs:61-71 | a step changes the termination measure by the change of that worker alone |
| `Pool.RecvKeeps` | src/exec/parallel.rs:284-289 | results of one worker arrive in the order in which its tasks were sent |
| `Pool.WorkerPool.Drop` | src/exec/parallel.rs:87-97 | shutdown terminates; every task ever sent has been called exactly once, and every worker has exited |
| `Pool.WorkerPool.DropReceiver` | src/exec/parallel.rs:186-187 | the receiver goes only after every worker has exited, so no worker loses a result |
| `Schedule.EffectiveCapExact` | src/exec/parallel.rs:194-195 | the effective cap is at most `max_in_flight`, at most n_workers * (worker_queue_cap + 1) in exact integers, and equal to one of them; it is at least 1, and 1 only if `max_in_flight` is 1 |
| `Parallel.ScanCovers` | src/exec/parallel.rs:105-120 | one round of the round-robin scan visits every worker |
| `Parallel.ScanGoesRound` | src/exec/parallel.rs:105-110 | position k of the scan is worker (first + k) modulo n, and the next position is the next worker modulo n |
| `Parallel.TryNext` | src/exec/parallel.rs:108-119 | one attempt: the worker is the cursor modulo n, the cursor moves behind it, and the attempt takes the next turn |
| `Parallel.DispatchTaskTry` | src/exec/parallel.rs:100-124 | the task goes to the first worker in round-robin order after the last one used that is not seen full, or every worker was seen full and still has `worker_queue_cap` tasks outstanding, even with workers dequeuing between the attempts; the attempts continue the rotation, and after a full round of refusals the cursor stands where it was |
| `Rotation.FirstTasksInTurn` | src/exec/parallel.rs:100-124 | under every interleaving the j-th task started is called by worker j modulo n as long as j < n * worker_queue_cap |
| `Rotation.TaskOfTurn` | src/exec/parallel.rs:100-124 | for any j it is called by worker j modulo n as long as no attempt up to then was refused |
| `Rotation.EarlyAccepted` | src/exec/parallel.rs:112-120 | the first n * worker_queue_cap attempts of a run cannot be refused |
| `Rotation.OnePerRound` | src/exec/parallel.rs:105-110 | after k attempts a worker has accepted at most one task per round of n attempts |
| `Rotation.RefusedTurn` | src/exec/parallel.rs:114-117 | a refusal keeps the rotation: the k-th attempt of the run is at worker k modulo n, only a worker that has accepted worker_queue_cap tasks refuses, and the refused task is the next one tried |
| `Rotation.AcceptedTurn` | src/exec/parallel.rs:112-113 | an acceptance keeps the rotation, and each worker has been sent exactly the tasks it accepted, in that order |
| `Schedule.FullMeansBusy` | src/exec/parallel.rs:219-222 | after a full round `in_flight` is at least `n_workers * worker_queue_cap`, hence at least 1 |
| `Schedule.IdleMeansStuck` | src/exec/parallel.rs:271 | leaving the dispatch loop with nothing in flight implies an empty queue and no pending task |
| `Schedule.IdleExit` | src/exec/parallel.rs:271-281 | the exit with nothing in flight is an exact cycle report or the early exit |
| `Schedule.CompleteRun` | src/exec/parallel.rs:305 | the regular exit: the value table is the meaning, nothing is under way, the record is complete |
| `Schedule.SentKeeps` | src/exec/parallel.rs:214-218 | a dispatched task keeps the scheduler invariant |
| `Schedule.RecordSent` | src/exec/parallel.rs:213-216 | the worker recorded for a task is the one it was sent to |
| `Schedule.PickKeeps` | src/exec/parallel.rs:239-253 | a popped task with its argument vector is a good call and becomes the task in hand |
| `Schedule.SourceKeeps` | src/exec/parallel.rs:231-237 | a source finished on the scheduler thread keeps the invariant; if it was the last needed node and nothing is in flight, the early exit condition holds |
| `Schedule.LastSource` | src/exec/parallel.rs:231-237 | the queue order forces the early exit condition when a source is the last needed node to finish |
| `Schedule.RecvKeepsSched` | src/exec/parallel.rs:287-302 | recording a result keeps the invariant, and under the early exit condition the needed set is not complete afterwards |
| `Schedule.LineHead` | src/exec/parallel.rs:284-300 | the received result belongs to a started needed task without value, called on the right arguments |
| `Schedule.FinalCalls` | src/exec/parallel.rs:204-305 | everything ever sent is a good call of a needed task, at most once each, and of every evaluable needed task when nothing is left |
| `Schedule.CountersFit` | src/exec/parallel.rs:197-206 | `processed + in_flight` never exceeds the needed count, which bounds the dispatch loop |
| `Parallel.Scheduler.constructor` | src/exec/parallel.rs:197-202 | the initial state satisfies the scheduler invariant, with the cursor at worker 0 |
| `Parallel.Scheduler.Offer` | src/exec/parallel.rs:255-266 | queues the task in hand and counts it, or keeps exactly that task pending with at least one task in flight; the task goes to the first worker not seen full from the cursor on, is recorded for that worker, and the cursor moves behind it |
| `Parallel.Scheduler.MarkQueued` | src/exec/parallel.rs:214-218 | the start of a dispatched task is recorded with the worker that took it, in the order of acceptance |
| `Parallel.Scheduler.FinishSource` | src/exec/parallel.rs:231-237 | finishes one more node without touching the workers |
| `Parallel.Scheduler.StepReady` | src/exec/parallel.rs:226-268 | one ready node is finished, dispatched or kept pending; invariant kept |
| `Parallel.Scheduler.RetryPending` | src/exec/parallel.rs:208-223 | the pending task is offered before anything else; invariant kept |
| `Parallel.Scheduler.Dispatch` | src/exec/parallel.rs:206-269 | the dispatch loop terminates and stops only at the cap, with a pending task and something in flight, or with an empty queue |
| `Parallel.Scheduler.AwaitResult` | src/exec/parallel.rs:283-302 | receiving cannot block forever; one more node is done, or the failure is genuine |
| `Parallel.Scheduler.Record` | src/exec/parallel.rs:298-302 | the received value is stored once and its dependents are released |
| `Parallel.Scheduler.ReportIdle` | src/exec/parallel.rs:271-281 | the cycle exit is a correct outcome and every evaluable needed task has been sent exactly once |
| `Parallel.Scheduler.Loop` | src/exec/parallel.rs:204-305 | the scheduler loop terminates with a correct outcome for every interleaving |
| `Parallel.RunNeeded` | src/exec/parallel.rs:169-306 | outcome, calls after shutdown and record of a run over a marked, dependency-closed set; on every exit, failures included, the calls are exactly the dispatches on record |
| `Schedule.RecordMatchesCalls` | src/exec/parallel.rs:213-216 | the worker recorded for a node is the one it was sent to, and every recorded dispatch was sent |
| `Conservation.ExactlyOnePlace` | src/exec/parallel.rs:197-303 | between two scheduler actions each needed node is in exactly one of unreleased, ready, pending, a worker's queue, running, an unread result, done; other nodes are nowhere; nothing is anywhere twice |
| `Conservation.CountersExact` | src/exec/parallel.rs:197-198 | `in_flight` is the number of queued, running and unread tasks, `processed` the number of done nodes |
| `Conservation.InFlightBound` | src/exec/parallel.rs:194-206 | `in_flight` exceeds neither `max_in_flight` nor n_workers * (worker_queue_cap + 1), in exact integers |
| `Conservation.UnderWayIncomparable` | src/exec/parallel.rs:126-141 | nodes that are ready, pending or in flight never depend on one another |
| `Conservation.OutstandingSplits` | src/exec/parallel.rs:61-71 | what a worker owes is its unread results, its running call and its queue; splitting the channel by sender loses nothing |
| `Calls.GoodTaskMeaning` | src/exec/parallel.rs:64 | running a good call yields the meaning of its node |
| `Calls.CallsDiffer` | src/exec/parallel.rs:239-268 | no two entries of the logs of a run are calls of the same node |
| `Calls.AllIdsAtLeast` | src/exec/parallel.rs:122-123 | at least `cap` tasks at every worker make at least n_workers * cap in all |
| `Builder.DagBuilder.constructor` | src/builder.rs:32-37 | an empty builder |
| `Builder.DagBuilder.InsertNode` | src/builder.rs:50-63 | a known key is refused and changes nothing; otherwise the node is appended and the index stays exact |
| `Builder.DagBuilder.AddSource` | src/builder.rs:39-41 | as insertion, without dependencies |
| `Builder.DagBuilder.AddTask` | src/builder.rs:43-48 | as insertion, with the given dependency keys |
| `Builder.DagBuilder.Build` | src/builder.rs:65-107 | succeeds if and only if something was added and every dependency names a node; otherwise the error names the first dangling dependency in insertion order; the graph has the staged nodes in order with resolved dependencies and is well formed |
| `Builder.DagBuilder.Resolve` | src/builder.rs:81-91 | positions of the dependency keys, or the first key without one |
| `Builder.CompiledIsValid` | src/builder.rs:65-107 | a compiled graph satisfies what every executor relies on |
| `Merkle.NaiveMerkleRoot` | examples/rollup.rs:598-617 | the level-by-level loop computes the root defined by splitting in the middle, with one hash less than leaves |
| `Merkle.NodeIsSliceRoot` | examples/rollup.rs:605-614 | a tree node is the root of the slice of leaves below it |
| `Merkle.RootOfHalves` | examples/rollup.rs:605-614 | the root over two halves hashes the root of the left half before that of the right half |
| `Merkle.EncodeMerkleProofV1` | examples/rollup.rs:471-504 | the encoder's bytes one by one: version 1, height, the index with its least significant byte first, the leaf, and per level the index bit and the sibling |
| `Merkle.ProofLayout` | examples/rollup.rs:471-504 | the same layout after any number of levels |
| `Merkle.ProofReadsBack` | examples/rollup.rs:471-504 | height, index, leaf, every sibling and every side bit can be read back from the encoded bytes, whose length is 38 + 33 per level |
| `Merkle.LeBytesRoundTrip` | examples/rollup.rs:494 | an index survives its encoding in four bytes |
| `Merkle.BytesOf` | examples/rollup.rs:494 | byte i of an encoded index is its digit of weight 256^i |
| `Merkle.LittleEndian` | examples/rollup.rs:518 | decoding weighs the four bytes with 1, 256, 65536 and 16777216 |
| `Merkle.LeValueRoundTrip` | examples/rollup.rs:518 | four bytes survive decoding and encoding |
| `Merkle.VerifyMerkleProof` | examples/rollup.rs:506-549 | accepts exactly the proofs that are complete, have the index bits as side bits and climb to the root; otherwise the first applicable error in the order of the code, the side error exactly if the side byte of some complete level is not that bit of the little-endian index; trailing bytes are ignored |
| `Merkle.WellFormedBytes` | examples/rollup.rs:512-541 | well-formedness in terms of the bytes: length, version, and every side byte against the bit of the index read from bytes 2 to 5, least significant first |
| `Merkle.ClimbBytes` | examples/rollup.rs:523-546 | the climb in terms of the bytes: from bytes 6 to 37, per level with the 32 bytes after the side byte, on the right for side 0 and on the left for side 1 |
| `Merkle.PathStep` | examples/rollup.rs:446-456 | an ancestor is the hash of the ancestor below it and the sibling at `(pos >> level) ^ 1`, on the sides the position bit says |
| `MerkleProofs.HonestProofAccepted` | examples/rollup.rs:482-549 | completeness: a proof with the leaf at a position and its path siblings is accepted against the root, for every tree and position |
| `MerkleProofs.AcceptedExactly` | examples/rollup.rs:506-549 | soundness and completeness as one equivalence, for every tree and every proof height: a well-formed proof agrees with the tree on all levels they share (the node it starts from or passes through, and every sibling from there to the root) if and only if it is accepted against the root and no level of it hashes another pair than the tree to the same digest |
| `MerkleProofs.FollowsAtHeight` | examples/rollup.rs:506-549 | for a proof of the height of the tree with an index inside it, this agreement is: the leaf field is the leaf at the index, and the siblings are the path siblings of that leaf |
| `MerkleProofs.AcceptedProofOrCollision` | examples/rollup.rs:506-549 | what acceptance says about the leaf field, for every proof height k against a tree of height h, without assumptions on the hash: a collision between proof and tree, or, if k <= h, the leaf field is the tree node on level h - k at the position of the side bits, or, if k > h, the tree leaf at that position is a node hash the proof computes on its way up |
| `MerkleProofs.NodeProofAccepted` | examples/rollup.rs:482-549 | every tree node on level h - k has an accepted proof of height k, without collision, under every index whose side bits spell its position |
| `MerkleProofs.AcceptedLeafOrCollision` | examples/rollup.rs:506-549 | for a proof of the tree's own height the leaf field is the leaf at the index modulo 2^h, or proof and tree contain two different input pairs with the same node hash |
| `MerkleProofs.CallerCheckIsExact` | examples/rollup.rs:506-549 | over all hashes, trees of height h up to the word size, and accepted proofs of height k and index idx without collision: the leaf field is always the leaf at the index if and only if k == h and idx < 2^h |
| `MerkleProofs.Misnamed` | examples/rollup.rs:506-549 | for every other height or index: a tree and an accepted proof without collision whose leaf field is not the leaf at the index |
| `MerkleProofs.AcceptedWithoutLeaf` | examples/rollup.rs:506-549 | a concrete input: over two zero leaves and a node hash that is never zero, a proof is accepted whose leaf field is no leaf of the tree |
| `MerkleProofs.RootPassesAsLeaf` | examples/rollup.rs:506-549 | a proof without levels that carries the root as its leaf is accepted, for every tree |
| `MerkleProofs.IndexBeyondTree` | examples/rollup.rs:506-549 | a proof of the height of the tree is accepted for the leaf at a position also with that position plus 2^h as its index, which no leaf has |
| `MerkleProofs.PathBitsIsIndex` | examples/rollup.rs:534 | the position that side bits s to s + m - 1 spell is the index divided by 2^s, modulo 2^m |
| `MerkleProofs.PathBitsBit` | examples/rollup.rs:534 | bit l of that position is the side bit of level s + l |
| `MerkleProofs.WellFormedIsEncoded` | examples/rollup.rs:482-549 | encoding the fields read from a well-formed proof gives back its bytes, up to trailing ones: the accepted form is canonical |
| `Merkle.ShrIsDiv` | examples/rollup.rs:447 | a right shift is the quotient by a power of two |
| `Merkle.BitIsQuotient` | examples/rollup.rs:534 | within a word, bit n is the quotient by 2^n modulo 2 |
| `Merkle.LowIsMod` | examples/rollup.rs:534 | the low n bits of a number are the number modulo 2^n |
| `TreeGraph.AddLevels` | examples/merkle.rs:140-161 | for any number of leaves and levels, adding the inner nodes level by level never meets a duplicate key and adds exactly the planned nodes, `leaves >> level` on each level |
| `TreeGraph.AddLeaves` | examples/merkle.rs:125-136 | adding sources and leaves never meets a duplicate key and adds exactly the planned nodes |
| `TreeGraph.TreeMeans` | examples/merkle.rs:140-161 | every tree key means the hash of the subtree below it; the 32-byte checks never fail |
| `TreeGraph.SubtreeNeeded` | src/exec/common.rs:30-38 | a request for a tree node needs its whole subtree |
| `TreeGraph.SubtreeClosed` | src/exec/common.rs:30-38 | a subtree with its leaves and transactions needs nothing else |
| `TreeGraph.InnerKeysSize` | examples/merkle.rs:90-104 | the subtree of a node on level l has 2^l - 1 inner nodes |
| `TreeGraph.PerfectLevels` | examples/merkle.rs:140-161 | over a power of two of leaves the level loops add exactly the inner nodes of the perfect tree, one fewer than leaves |
| `KeyedGraph.NeededKeys` | src/exec/common.rs:30-38 | a dependency-closed set of keys that contains the request and is needed throughout is the needed set |
| `KeyedGraph.CallsOfKeys` | src/exec/parallel.rs:239-268 | of a set of tasks a complete run calls exactly the needed ones, once each, and none of the others |
| `KeyedGraph.TotalIsPositions` | examples/rollup.rs:224-237 | the call totals are the numbers of log entries for the counted nodes |
| `KeyedGraph.RequestAnswered` | src/exec/parallel.rs:308-320 | where every node has a value, a parallel run answers every requested key if and only if the early exit does not apply, and reports an empty cycle if it does |
| `KeyedGraph.SequentialAnswered` | src/exec/sequential.rs:104-114 | where every node has a value, the sequential run answers every requested key |
| `MerkleDag.BuildMerkleDag` | examples/merkle.rs:115-166 | building the perfect tree cannot fail and yields exactly the planned nodes |
| `MerkleDag.TreeKeyMeans` | examples/merkle.rs:140-161 | `node/level/index` means the Merkle root of the slice of leaves below it |
| `MerkleDag.SubtreeIsNeeded` | examples/merkle.rs:83-104 | a request for a tree node needs exactly its subtree |
| `MerkleDag.SubtreeAnswer` | examples/merkle.rs:83-104 | any parallel run of the request answers with the root of the requested slice |
| `MerkleDag.SubtreeCalls` | examples/merkle.rs:83-104 | the subtree request makes exactly 2^level leaf hashes and 2^level - 1 inner hashes in the whole graph |
| `MerkleDag.RequestSubtree` | examples/merkle.rs:28-107 | build and parallel request end to end: value and call counts for every perfect tree, level, index and interleaving |
| `RollupDag.SiblingIsTreeKey` | examples/rollup.rs:446-456 | the named sibling exists and is the tree node next to the path of the target leaf |
| `RollupDag.AddChunk` | examples/rollup.rs:302-330 | one chunk tree and its root alias are added as planned, without duplicates |
| `RollupDag.CollectProofDeps` | examples/rollup.rs:361-371 | the proof node depends on the leaf and one sibling per level, in order |
| `RollupDag.BuildRollupCommitmentDag` | examples/rollup.rs:278-399 | for batches, chunk sizes and heights of any shape: the build succeeds if and only if every dependency of the planned nodes is planned itself; then the graph has exactly the planned nodes, otherwise the error names a planned dependency that is not there; no key is ever a duplicate |
| `RollupDag.BuildsExactly` | examples/rollup.rs:278-399 | for a power of two of chunks, each a power of two of transactions, that is the case if and only if chunks and batch have at least two members each and the target lies in the batch |
| `RollupDag.MissingDep` | examples/rollup.rs:324-371 | without two levels or with a target outside the batch some planned dependency is missing |
| `RollupDag.RollupKeysClosed` | examples/rollup.rs:278-399 | with at least two members per chunk and batch and a target in the batch, every dependency of the planned graph, computed sibling keys included, is a key of the graph |
| `RollupRequest.ChunkNodeMeans` | examples/rollup.rs:302-321 | a chunk node means the tree node over the leaf hashes of its chunk |
| `RollupRequest.ChunkRootMeans` | examples/rollup.rs:324-329 | the chunk alias means the Merkle root of the chunk |
| `RollupRequest.BatchRootMeans` | examples/rollup.rs:332-359 | the batch alias means the root over the chunk roots |
| `RollupRequest.SiblingMeans` | examples/rollup.rs:446-456 | each named sibling means the path sibling of the target leaf on that level |
| `RollupRequest.ProofMeans` | examples/rollup.rs:361-386 | the proof node means the encoded proof of the target leaf |
| `RollupRequest.TargetProofAccepted` | examples/rollup.rs:482-549 | for every position: the proof is accepted against the chunk root without collision if and only if target leaf and siblings are those at the position reduced modulo 2^32; positions below 2^32 are accepted unconditionally |
| `RollupPositions.PositionLimitIsExact` | examples/rollup.rs:361-386 | for a chunk height and a position of the chunk: over all transactions, batches and hashes the bytes of the proof node are always accepted against the root of the target's chunk if and only if the position is below 2^32 |
| `RollupPositions.FarTargetRejected` | examples/rollup.rs:383-385 | for every position from 2^32 on: a setup in which truncation makes the verifier reject the proof of the target against its own chunk root |
| `RollupRequest.ProofNeeds` | examples/rollup.rs:201-217 | chunk root and proof together need one chunk tree, its alias and the proof node, nothing else |
| `RollupRequest.ProofRequestCalls` | examples/rollup.rs:224-237 | the request makes one leaf hash per transaction of the chunk, one inner hash per inner node of its tree, one proof assembly, and no other call of these kinds |
| `RollupRequest.ProveInclusion` | examples/rollup.rs:201-237 | build, parallel run and verification end to end, under every interleaving: the returned proof is accepted against the returned chunk root for every position below 2^32; for any position and without collision it is accepted if and only if leaf and siblings at the truncated position are the same; the cost is one leaf hash per transaction of the chunk, one inner hash less, one proof assembly |
| `RollupRequest.NaiveFullBatchCommitment` | examples/rollup.rs:565-595 | the baseline computes the same batch root as the graph, with one leaf hash per transaction and one inner hash less than transactions |
| `RollupRoots.BatchNeeds` | examples/rollup.rs:147-152 | the batch root needs every node of the graph except the proof node |
| `RollupRoots.InnerTotal` | examples/rollup.rs:302-353 | all chunk trees and the batch tree together have one inner node less than there are transactions |
| `RollupRoots.RequestBatchRoot` | examples/rollup.rs:143-177 | build, sequential run and parallel run of the batch-root request, under every interleaving: both answer with the root over the chunk roots, and both make one leaf hash per transaction, one inner hash less, and no proof assembly |
| `RollupRoots.RequestChunkRoot` | examples/rollup.rs:179-199 | build and parallel run of the chunk-root request, under every interleaving: the root of that chunk, with one leaf hash per transaction of the chunk, one inner hash less, and no proof assembly in the whole graph |

## Left out

- Real threads, memory ordering and the insides of the channels: channel operations are atomic, and worker steps interleave with them.
- Panicking, non-returning or impure task functions: a panic kills a worker thread and is outside these claims.
- Shared ownership, thread-safety bounds, lifetimes and hashing: values are plain values, hash maps are finite maps.
- The errors for a closed pool and a disconnected channel: the scheduler holds the pool open and the receiver alive, so those branches cannot be reached; they have no counterpart here.
- The error for a third side value in the proof verifier: the side has just been compared with a bit, so that branch cannot be reached either.
- Stops of debug builds (assertions, shift amounts of 64 and more, overflow checks of counters): graphs and proofs with heights below 64 reach none; for larger heights the model follows a release build.
- Display and conversion of errors, the unused error variant for missing keys, and the forwarding methods of the public executor type.
- The concrete toy hash and the generated transaction bytes: the hashes are parameters, the transactions an arbitrary list.
- Hash repetition counts, printing, environment variables and call counters of the example programs: the counters are replaced by counts over the call log.
- The pipeline example and the benchmarks: nothing in them goes beyond building and running a graph.
- Update in place of the observer's vectors: they are sequence fields that the marking methods reassign; the value table and the in-degrees are arrays.
- Time: no bound on running time is stated, only termination.
