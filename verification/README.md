# Mode in Dafny

Mode is an asyncio framework of services: a service starts, stops and crashes together with the
services below it, supervisors restart services within a rate limit, and a handful of utilities
(dependency graphs, exit stacks, events, queues, timers, token buckets) hold the rest together.
This project models the parts of it that are algorithms or protocols and proves what they are for.

| file | source | what is proved |
|---|---|---|
| `Reachability.dfy`, `Tarjan.dfy`, `Kahn.dfy`, `Condensation.dfy`, `DependencyGraph.dfy`, `Unfolding.dfy` | `mode/utils/graphs/graph.py` | `_tarjan72` returns the strongly connected components in dependency order, `_khan62` exactly the nodes that are not below a cycle, `topsort` one representative of each component; when `valency_of` ends and what it counts |
| `ExitStack.dfy` | `mode/utils/_py37_contextlib.py` | the exit loop means nested `with` statements (PEP 343), down to the chains of `__context__` on the heap |
| `Stampede.dfy`, `Event.dfy`, `MethodQueue.dfy` | `mode/utils/futures.py`, `mode/utils/locks.py`, `mode/threads.py` | the protocols, for any number of tasks and every interleaving at an `await` |
| `Service.dfy`, `Lifecycle.dfy`, `Supervisor.dfy` | `mode/services.py`, `mode/supervisors.py` | start, stop, restart and crash over arbitrary trees; bounds on hook calls over every interleaving; the supervision strategies over any schedule of crashes |
| `TokenBucket.dfy`, `Timer.dfy` | `mode/utils/times.py`, `mode/timers.py` | real bounds on what a bucket pours in any window, and on how far a timer drifts |
| `FlowControlQueue.dfy` | `mode/utils/queues.py` | reports of high pressure and drop callbacks alternate, on their side of the thresholds |
| `Sequences.dfy` | - | what several files say about sequences |
| `Tree.dfy` | `mode/utils/trees.py` | the graph of a tree has exactly its edges, and the valency of a node is the number of its descendants; how `reattach` can make a cycle |

How it is modelled:

- An object that the source updates in place is a class with the same fields; its methods have the
  source's branches and loops, and their `ensures` tie the new state to the old one.
- A protocol is a state machine over values (`State`, `Action`, `Step`). A step runs from one
  `await` to the next. The class next to it has the fields of the source's object, and one method
  for each kind of step, proved to do exactly that step; the results are
  lemmas over every list of actions. A step that cannot happen in a state changes nothing, so
  every list of actions is a schedule. What a schedule brings about is stated on the actions
  themselves: which `set` has no `clear` after it, whose task is cancelled where, which method is
  taken with which promise.
- Futures, promises and tasks are named by numbers. The clock, the reactions of callbacks, the
  outcomes of methods and the order of a Python set are inputs.
- Times, rates and ratios are exact reals.

What the source does that its documentation does not say, each stated as a lemma or a contract:

- `_tarjan72` makes `low` a list but uses it as a map from nodes (`graph.py:142`); it is modelled
  as that map. The graphs are closed: every successor is a key.
- `_fix_exception_context`: when a callback raises again the very exception it was given, the
  chain becomes a cycle, and when a later exception is raised again over it, the walk has no end
  (`ReRaiseMakesCycle`, `ReRaiseThenRaise`). A walk ends if and only if the chain of the new
  exception ends, or the old or the frame exception is on it behind the new one
  (`WalkEndsExactly`); `FixExceptionContext` says exactly when the chain ends afterwards.
- `StampedeWrapper`: cancelling a waiter cancels the future that all callers share, and the owner
  then fails with InvalidStateError (`CancelledWaiterSpoilsTheRun`; `CallersShareTheOutcome` says
  exactly what every caller gets); an exception other than a cancellation leaves
  the waiters waiting (`StrandedWaiter`; `WaitersCanGoOn` says exactly which); a cancellation inside
  the `finally`, and nothing else, leaves `fut` set for ever (`BrokenWrapper`, `RunsDoNotOverlap`).
- `MethodQueue`: a put that is still scheduled on the loop when the flush ends is never processed
  by the flush (`ScheduledCallIsLeftBehind`, and exactly then: `FlushLeavesNothing`); it is stuck
  for ever if and only if no more workers wait in `get` than methods are ahead of it
  (`LeftBehindExactly`).
- `service_reset` does not end a start that is suspended: two `on_start` calls can then be going on
  at the same time, if and only if the reset found a start suspended in `on_first_start` or in
  `on_start` (`ResetIsSafe`; `StartsCanOverlap` has a schedule for each).
- `TokenBucket`: the last pour is not advanced while the bucket is full, so a window can see two
  capacities (`WindowBoundIsAttained`); a single one bounds every run if and only if the bucket is
  not full when the window begins, or its last pour is not in the past, or its rate is zero, or it
  holds less than one token (`SingleBoundExactly`); without `raises`, `async with bucket` sleeps but pours
  nothing, so at any rate but zero it limits nothing, and at rate zero it fails for want of a
  token with a ZeroDivisionError (`WithoutRaisesAllAreAdmitted`); a negative amount is never
  refused and can overfill the bucket (`NegativeAmountOverfills`). The parameters `fill_rate` and
  `capacity` of the constructor are not used: the capacity is `over`.
- `Timer`: with a negative `max_drift_correction` every correction is that limit, and in the wrong
  direction (`CorrectionIsLimited`).
- `Node.detach` ignores its argument; the roots of the nodes below a node are not updated, so the
  guards of `reattach` let a cycle in (`StaleRootsLetACycleIn`), which `crash` survives.
- `FlowControlQueue`: a queue is under high pressure from the first item on if and only if its
  maximum size is at most 1, which includes queues without one (`AlwaysHighUpToOne`); the thresholds are in order exactly from a maximum size of -1 on.

Assumptions: each exception an exit callback raises is new, with a private chain whose end is
nothing, the exception handled around the stack, or the exception the callback was given; trees of
services are fixed before they are started, and hooks leave the flags of the services alone in
`Service.dfy` and `Supervisor.dfy` (in `Lifecycle.dfy` anything may interleave); a supervised group
is fixed, and crashes happen between the rounds of the supervisor.

## Model

| member | source | states |
|---|---|---|
| DependencyGraphs.TarjanSearch.Visit | mode/utils/graphs/graph.py:144-161 | a visit keeps the whole search invariant (stack order, low links that lead down the stack to a node they reach, emitted components final) and leaves everything below the node visited |
| DependencyGraphs.TarjanSearch.Finish | mode/utils/graphs/graph.py:156-161 | the end of a visit emits the top of the stack exactly if the node is the root of its component, and keeps the invariant |
| DependencyGraphs.TarjanSearch.MarkEmitted | mode/utils/graphs/graph.py:160-161 | the nodes of an emitted component, and no others, get the size of the graph as their low number |
| DependencyGraphs.DependencyGraph.Tarjan72 | mode/utils/graphs/graph.py:134-166 | on every closed graph: a partition of the nodes into exactly the classes of mutual reachability, none empty, each node once, each component after every other component it has an edge to |
| Tarjan.SearchIsComplete | mode/utils/graphs/graph.py:163-166 | a search that has visited every node has emitted exactly the strongly connected components, dependencies first |
| Tarjan.ReachGoesBack | mode/utils/graphs/graph.py:154-159 | a component is emitted after every component that can be reached from it, not only by one edge |
| Tarjan.PopKeepsInv | mode/utils/graphs/graph.py:156-161 | cutting the stack at a root emits a whole component: the invariant of the search still holds |
| Tarjan.TopIsAComponent | mode/utils/graphs/graph.py:156-157 | the top of the stack from a root on is one class of mutual reachability: a node is in it exactly if it and the root reach each other |
| Tarjan.NextSuccessor | mode/utils/graphs/graph.py:152-154 | one round of the loop over the successors, with the recursive call and the minimum, keeps what the scan of a node knows |
| DependencyGraphs.DependencyGraph.CountEdges | mode/utils/graphs/graph.py:115-120 | the counter holds, for each node, the number of edges into it, parallel edges included |
| DependencyGraphs.DependencyGraph.Uncounted | mode/utils/graphs/graph.py:121 | exactly the nodes no edge leads to, each once |
| DependencyGraphs.DependencyGraph.CountDownFrom | mode/utils/graphs/graph.py:127-130 | counting down the edges of the popped node leaves the counter of the graph without it, and makes ready exactly the nodes that lost their last dependant |
| DependencyGraphs.DependencyGraph.Khan62 | mode/utils/graphs/graph.py:110-132 | emits, each once, exactly the nodes that are neither on a cycle nor reachable from one, every dependency before its dependants |
| Kahn.Emit | mode/utils/graphs/graph.py:123-125 | taking a ready node off keeps the account of emitted, ready and remaining nodes |
| Kahn.EmittedNotBelowCycle | mode/utils/graphs/graph.py:123-130 | a node that was emitted is not on a cycle and not reachable from one |
| Kahn.EmittedIsAllButBelowCycles | mode/utils/graphs/graph.py:123-132 | when nothing is ready, the nodes not emitted are exactly those on or below a cycle |
| Kahn.TraceBack | mode/utils/graphs/graph.py:123-130 | among nodes that each have a dependant left, going back along edges must come upon a cycle |
| DependencyGraphs.DependencyGraph.NodeComponents | mode/utils/graphs/graph.py:74-76 | the map sends each node to the component it is in |
| DependencyGraphs.DependencyGraph.Condense | mode/utils/graphs/graph.py:77-84 | the graph over components has an edge exactly where the graph has one between two different components |
| Condensation.CondensationIsOrdered | mode/utils/graphs/graph.py:72-84 | the condensed graph is closed and the order in which components were emitted puts dependencies first, so it has no cycle |
| Condensation.WalkCondenses | mode/utils/graphs/graph.py:79-84 | a walk between nodes becomes a walk between their components |
| Condensation.RepresentativesAreSorted | mode/utils/graphs/graph.py:85 | the first nodes of the sorted components are one representative for each component, in dependency order |
| Condensation.TopSortedAcyclic | mode/utils/graphs/graph.py:65-85 | on an acyclic graph such an order is a permutation of all nodes with dependencies first |
| DependencyGraphs.DependencyGraph.Topsort | mode/utils/graphs/graph.py:65-85 | on every closed graph: exactly one representative of each strongly connected component, each after every representative it can reach; on an acyclic graph a dependency-first permutation of the nodes |
| DependencyGraphs.DependencyGraph.AddArc | mode/utils/graphs/graph.py:50-52 | a new key goes last and has no edges; an old key is left as it is |
| DependencyGraphs.DependencyGraph.AddEdge | mode/utils/graphs/graph.py:54-59 | appends the edge; fails (KeyError) and changes nothing when the tail is not a key |
| DependencyGraphs.DependencyGraph.ValencyOf | mode/utils/graphs/graph.py:87-95 | counts the nodes below a node, once for each way of getting there; 0 for what is not a key |
| Unfoldings.UnfoldsExactlyOffCycles | mode/utils/graphs/graph.py:87-95 | the recursion of `valency_of` has a finite tree of calls if and only if no cycle can be reached from the node |
| Unfoldings.UnfoldingIsUnique | mode/utils/graphs/graph.py:93-94 | that tree of calls is determined by the graph |
| ExitStacks.CallsAreLifo | mode/utils/_py37_contextlib.py:263-270 | nested `with` statements call every exit, the last one entered first, each with the exception that leaves the block inside it |
| ExitStacks.ChainSinceSwallow | mode/utils/_py37_contextlib.py:248-261 | the chain of contexts that leaves nested `with` statements: the private chains raised since the last swallow, newest first, and the chain of the body if nothing was swallowed |
| ExitStacks.FixExceptionContext | mode/utils/_py37_contextlib.py:248-261 | the last exception walked is linked to the old one, whatever the old chain is; if the old chain ends, the new one ends if and only if that exception was not in it |
| ExitStacks.ReRaiseMakesCycle | mode/utils/_py37_contextlib.py:248-261 | raising the same exception again makes it its own context, and its chain has no end |
| ExitStacks.WalkEndsExactly | mode/utils/_py37_contextlib.py:250-258 | for every chain: the walk has an end, and a first one, if and only if the chain of the new exception ends or the old or the frame exception is on it behind the new one |
| ExitStacks.EveryChainEndsOrComesRound | mode/utils/_py37_contextlib.py:250-258 | among finitely many exceptions there are no other chains than those that end and those that come round |
| ExitStacks.FirstStopIsDistinct | mode/utils/_py37_contextlib.py:250-258 | up to its first stop a walk meets no exception twice |
| ExitStacks.ReRaisedWalkNeverEnds | mode/utils/_py37_contextlib.py:251-258 | raised again over a loop that neither it nor the frame exception is on, an exception has a walk without an end |
| ExitStacks.ReRaiseThenRaise | mode/utils/_py37_contextlib.py:251-261 | one callback raising again what it was given and the next raising another exception bring that about: the walk of a callback that raises the latter again has no end |
| ExitStacks.FiniteChainIsAcyclic | mode/utils/_py37_contextlib.py:250-258 | a chain that ends has no repetition |
| ExitStacks.ExitStack.FixRaised | mode/utils/_py37_contextlib.py:275-280 | the chain of what a callback raised becomes its private chain followed by the chain active before, and other callbacks' exceptions are as they were |
| ExitStacks.ExitStack.CallExit | mode/utils/_py37_contextlib.py:270-282 | one callback called: the loop's exception becomes what the `with` statement around the block so far leaves |
| ExitStacks.ExitStack.Unwind | mode/utils/_py37_contextlib.py:263-282 | the loop makes exactly the calls of the nested `with` statements, in their order and with their arguments, and ends with their exception and a chain that ends |
| ExitStacks.ExitStack.Exit | mode/utils/_py37_contextlib.py:241-292 | what leaves the `with` block - nothing, the original exception or a new one - is what leaves the nested `with` statements; True is returned only if an exception was received |
| ExitStacks.ExitStack.RaiseKeepingContext | mode/utils/_py37_contextlib.py:283-291 | raising the pending exception leaves its fixed context in place |
| ExitStacks.ExitStack.PopAll | mode/utils/_py37_contextlib.py:160-165 | the callbacks move to a fresh stack and none is left |
| ExitStacks.ExitStack.PushExitCallback | mode/utils/_py37_contextlib.py:221-223 | the callback is put on top |
| Stampede.StepKeepsInv | mode/utils/futures.py:48-67 | every step, by any caller and with cancellations anywhere, keeps: one owner, futures that tell how their run went, callers whose outcome fits |
| Stampede.RunsDoNotOverlap | mode/utils/futures.py:48-64 | over every schedule two runs of `fun` never overlap; `fut` is set exactly while a run is active if no caller was cancelled in `finally`, and if one was it is set although no run is active |
| Stampede.HistoryIsTheSchedule | mode/utils/futures.py:48-67 | a run's future was cancelled from outside exactly if the schedule cancels one of its waiters while it is pending, and the wrapper is broken exactly if the schedule cancels a caller in `finally` |
| Stampede.CallersShareTheOutcome | mode/utils/futures.py:50-67 | over every schedule, what every caller that has finished got, by the schedule alone: a cancellation if its task was cancelled outside `fun`, and otherwise what the run it owns or read returned, if and only if no waiter of that run was cancelled while it went on; who gets which error in the other cases |
| Stampede.CancellationsAndEnds | mode/utils/futures.py:48-67 | a caller counts as cancelled if and only if the schedule cancels its task at an await other than that of `fun`, and a run has ended exactly as the schedule ends it |
| Stampede.CallersJoinTheRun | mode/utils/futures.py:50-67 | a caller that comes in while a run is active shares that run, and one that comes in while none is begins one, unless the wrapper is broken |
| Stampede.CallersReadWhatIsDone | mode/utils/futures.py:65-67 | it gets its outcome at once if and only if by then the run has returned or been cancelled, or one of its waiters has been; otherwise it waits |
| Stampede.RunCompletes | mode/utils/futures.py:55-64 | however `fun` ends, its caller finishes after two more sleeps, and the wrapper is free for the next run |
| Stampede.CancelledWaiterSpoilsTheRun | mode/utils/futures.py:56-67 | a schedule in which cancelling one waiter makes the owner fail with InvalidStateError and cancels another waiter |
| Stampede.WaitersCanGoOn | mode/utils/futures.py:54-67 | after a run has ended its waiters can go on if and only if `fun` did not raise something else or the future was cancelled |
| Stampede.RaiseStrandsWaiters | mode/utils/futures.py:54-67 | after such an exception, without cancellations, a waiter waits for ever |
| Stampede.StrandedWaiter | mode/utils/futures.py:54-67 | a schedule that strands a waiter, which then waits still after every schedule without cancellations |
| Stampede.BrokenForEver | mode/utils/futures.py:61-63 | after a cancellation inside `finally` the future stays set and `fun` never runs again |
| Stampede.BrokenWrapper | mode/utils/futures.py:58-63 | a schedule that breaks the wrapper: from then on, whatever happens, `fun` is not called again |
| Stampede.StampedeWrapper.AfterFirstSleep | mode/utils/futures.py:50-55 | becoming the owner, reading a finished future or starting to wait is the step of the protocol |
| Stampede.StampedeWrapper.AfterFun | mode/utils/futures.py:55-62 | the end of `fun` resolves or cancels the shared future as the step of the protocol says |
| Stampede.StampedeWrapper.AfterSecondSleep | mode/utils/futures.py:57-60 | after the sleep that follows `set_result` the owner keeps its result, unless it was cancelled meanwhile: the step of the protocol |
| Stampede.StampedeWrapper.AfterFinally | mode/utils/futures.py:61-64 | the future is given up and the owner's outcome is fixed |
| Stampede.StampedeWrapper.AfterAwait | mode/utils/futures.py:67 | a waiter gets the outcome of the future, or its own cancellation |
| Stampede.StampedeWrapper.CancelCaller | mode/utils/futures.py:48-67 | asking to cancel a caller at any await but that of `fun`: it is told when it runs next, and a future it waits for is cancelled at once |
| Stampede.CancelledTwiceIsOnce | mode/utils/futures.py:48-67 | asking again before the caller has run changes nothing |
| Events.EveryRun | mode/utils/locks.py:42-79 | over every interleaving of wait, set, clear, cancel and resume: the flag is true if and only if some `set` has no `clear` after it; a call of `wait` returns at once if and only if it is true when it enters, and otherwise is queued; a queued call returns True if and only if it is resumed after a `set` before anybody has cancelled it, and is cancelled if and only if instead it is resumed after a cancellation |
| Events.WaitersInOrder | mode/utils/locks.py:72-79 | over every schedule the calls that wait are queued in the order in which they entered |
| Events.StepKeepsInv | mode/utils/locks.py:42-79 | every step keeps that invariant |
| Events.SetReleasesWaiters | mode/utils/locks.py:42-61 | a call that waits when `set` is called and is never cancelled returns True once it is resumed, even if `clear` comes first |
| Events.NoSetNoReturn | mode/utils/locks.py:70-79 | a call with no `set` since it queued cannot return True |
| Events.Event.SetFlag | mode/utils/locks.py:48-53 | the loop over the waiters resolves exactly the pending futures, and only if the flag was not set |
| Events.Event.ClearFlag | mode/utils/locks.py:55-61 | clearing the flag is the step of the protocol: nobody who waits is touched |
| Events.Event.WaitEnter | mode/utils/locks.py:70-76 | returns at once or queues a new future, as the step says |
| Events.Event.WaitResume | mode/utils/locks.py:75-79 | the call returns True or is cancelled, and leaves the queue either way |
| MethodQueues.NothingIsLost | mode/threads.py:298-310 | over every schedule of callers, workers and the flush, each method is one and only one of scheduled, queued, in flight and finished, nothing is put twice, and gets happen in the order of the puts, each item once |
| MethodQueues.PutsFollowTheCalls | mode/threads.py:348-368 | the methods that were called are put in the order of the calls, and those that were cast in the order of the casts; those still to be put come last |
| MethodQueues.MethodsAreCalled | mode/threads.py:379-390 | over every schedule: a method is called if and only if it is taken before its promise is cancelled, and is then in flight until it ends; it is finished if and only if it has ended or was taken with a cancelled promise; exactly the methods that ended have a resolution, with their outcome |
| MethodQueues.RanIsResolved | mode/threads.py:384-390 | once its resolution has run, the promise of a method has the outcome with which the method ended, unless the schedule cancelled the promise first |
| MethodQueues.EveryEndResolves | mode/threads.py:384-390 | when the loop has run what is scheduled, so has the promise of every method that has ended |
| MethodQueues.WorkersLeave | mode/threads.py:305-310 | the queue has stopped exactly if `stop` was called, it has become ready exactly if something was put, and a worker has left its loop exactly if it was told to at the test or was cancelled in `get` |
| MethodQueues.WorkerServes | mode/threads.py:305-310 | before `stop`, an idle worker that goes on takes the oldest item, and calls its method unless the promise is cancelled |
| MethodQueues.OneResolution | mode/threads.py:379-390 | a resolved promise has the outcome of its own finished method, and no second resolution was ever scheduled |
| MethodQueues.DonePromisesStay | mode/threads.py:381-389 | a promise once resolved or cancelled never changes |
| MethodQueues.FlushLeavesNothing | mode/threads.py:344-377 | when the flush ends the queue is empty; without later calls it stays empty if and only if no put was still scheduled |
| MethodQueues.FlushDrains | mode/threads.py:370-377 | left alone, the flush takes everything in the queue in order and then ends |
| MethodQueues.FlushedIsTaken | mode/threads.py:370-377 | what was put before the flush ended has been taken, over every schedule |
| MethodQueues.LeftBehindExactly | mode/threads.py:305-310 | once the flush is done, a method still to be taken is never taken and its promise never resolved, whatever happens, if and only if no fewer methods are ahead of it than workers wait in `get` |
| MethodQueues.ScheduledCallIsLeftBehind | mode/threads.py:348-359 | a call before `stop` whose put runs only after the flush stays in the queue with its promise pending |
| MethodQueues.StepKeepsInv | mode/threads.py:298-390 | every step keeps the account of methods, the order of the queue and the account of resolutions |
| MethodQueues.MethodQueue.ProcessEnqueued | mode/threads.py:379-383 | a cancelled promise is skipped, anything else is in flight: the step of the protocol, of which `MethodsAreCalled` says what it means |
| MethodQueues.MethodQueue.ProcessEnd | mode/threads.py:384-390 | the end of a method schedules one resolution |
| MethodQueues.MethodQueue.MaybeSet | mode/threads.py:385-389 | a resolution takes effect only on a promise that is still pending |
| MethodQueues.MethodQueue.FlushRound | mode/threads.py:370-377 | one round of the flush is the step of the protocol |
| MethodQueues.MethodQueue.RunScheduledPut | mode/threads.py:354-359 | a scheduled put reaches the queue and makes it ready |
| MethodQueues.MethodQueue.WorkerCheck | mode/threads.py:305-306 | a worker goes on or ends, as its loop's test says |
| MethodQueues.MethodQueue.WorkerReady | mode/threads.py:306-309 | a worker that was let through waits for an item, unless the queue has stopped |
| MethodQueues.MethodQueue.WorkerGet | mode/threads.py:309-310 | a worker takes the oldest item and begins to process it |
| MethodQueues.MethodQueue.OnStop | mode/threads.py:344-345 | stopping begins the flush, once |
| Services.Service.Start | mode/services.py:761-794 | every start, however it finds the tree, makes exactly the calls of the start trace and starts exactly those it gets to; a service that was stopped or had crashed gets a first start if it was never restarted and nothing else, and no such service of the tree gets `on_start`; an untouched tree is started as a whole; a started service is refused |
| Services.Service.MaybeStart | mode/services.py:815-820 | starts the service in the same way unless it is started already |
| Services.Service.StartChildren | mode/services.py:788-792 | the children are started in order, each with its whole subtree |
| Services.Service.Stop | mode/services.py:857-873 | every stop, however it finds the tree, makes exactly the calls of the stop trace, and stops exactly the services that are not below one stopped already |
| Services.Service.StopChildren | mode/services.py:882-891 | the children are stopped last one first, each with its whole subtree |
| Services.StartCalls | mode/services.py:768-794 | a start calls each hook exactly once on each service it gets to and on no other: on those neither started themselves nor below one that is started or should stop; `on_start` and `on_started` only if they should not stop themselves, `on_first_start` only if they were never restarted |
| Services.StopCalls | mode/services.py:857-873 | a stop calls `on_stop` and `on_shutdown` exactly once on each service that is neither stopped nor below one that is, and on no other |
| Services.ChildrenTakeTurns | mode/services.py:788-891 | children are started one after the other, in order, and stopped in the reverse order |
| Services.StopMirrorsStart | mode/services.py:768-794 | for every tree, `on_stop` is called in exactly the reverse of the order of `on_started`, and `on_shutdown` in exactly the reverse of the order of `on_start` |
| Services.StartsTheFamily | mode/services.py:781-794 | a start calls `on_start` exactly once on each service of the tree and on no other |
| Services.StartThenStop | mode/services.py:857-891 | a tree started and then stopped, as a whole: the two orders above, on the calls really made |
| Services.Service.ServiceReset | mode/services.py:949-959 | every service of the subtree may be started again, with all four events cleared, no reason for a crash, and one more restart |
| Services.Service.ResetFrom | mode/services.py:949-959 | the recursion of the reset: each service below is reset exactly once |
| Services.Service.Restart | mode/services.py:942-947 | the whole subtree is up again with one more restart each, no flag set and no reason for a crash, and the calls are those of the stop, `on_restart`, and those of a start in which nothing is started for the first time |
| Services.Service.MarkCrashed | mode/services.py:851-855 | every service of the subtree is crashed with the reason, and nothing else is |
| Services.Service.WalkUp | mode/services.py:836-848 | the walk over beacons ends even on a cycle, has been everywhere a walk gets to, and marks exactly what the nodes walked carry, and the root's subtree if it came round |
| Services.Service.Crash | mode/services.py:825-849 | exactly which services a crash marks: nothing if crashed already, the own subtree if supervised, and otherwise also everything on the walk |
| Services.CrashInTree | mode/services.py:825-855 | without a supervisor a crash anywhere in a tree whose beacons mirror its children crashes the whole tree with that reason, and nothing outside it; with one, exactly the own subtree |
| Services.UpToTop | mode/utils/trees.py:110-118 | going up the parents of the beacons from any service of the tree one gets to the top |
| Lifecycles.HooksAreBounded | mode/services.py:761-779 | over every interleaving on any number of services: `on_first_start` and the extension of `_children` at most once ever, `on_start`, `on_started`, `on_stop` and `on_shutdown` at most once more than the service was reset |
| Lifecycles.EveryRun | mode/services.py:761-959 | every step of every service keeps the account behind those bounds |
| Lifecycles.RunIsOwnSteps | mode/services.py:761-959 | in every interleaving a service goes through its own steps, so what holds for every list of steps of one service holds for every interleaving |
| Lifecycles.FlagsTell | mode/services.py:761-959 | started, stopped and crashed say exactly whether there has been a start, a stop or a crash since the last reset, and the restarts are the resets |
| Lifecycles.NoStartsAfterCrash | mode/services.py:774-794 | after a crash or a stop, `on_start` is not called before the next reset, whatever else happens, and `on_started` only for starts that were at their children by then |
| Lifecycles.StartGoesThrough | mode/services.py:761-794 | a start that may begin, left alone, calls each hook once: the first one only before the first reset, and then the dependencies are added |
| Lifecycles.CallsAreAccounted | mode/services.py:761-873 | over every schedule: each call of a hook of a start is going on, has returned or has failed; a start goes on to its children unless it should stop by then; each stop is going on or has returned, with `on_shutdown`, or failed, without |
| Lifecycles.StartsOverlapExactly | mode/services.py:761-787 | in any state, two calls of `on_start` cannot overlap before the next reset if and only if at most one is going on or to come: going on, suspended in `on_first_start`, or not yet begun |
| Lifecycles.ResetIsSafe | mode/services.py:949-956 | so after a reset they cannot overlap if and only if it found no start suspended in `on_first_start` or `on_start` |
| Lifecycles.StartsCanOverlap | mode/services.py:770-783 | a schedule for each of the two ways in which they do |
| Lifecycles.Service.Start | mode/services.py:761-783 | the first stretch of a start is the step of the lifecycle; fails when started |
| Lifecycles.Service.AfterFirstStart | mode/services.py:774-783 | going on after `on_first_start` is the step of the lifecycle, whatever happened meanwhile |
| Lifecycles.Service.AfterStart | mode/services.py:783-788 | going on after `on_start`, unless the service should stop by then |
| Lifecycles.Service.AfterStop | mode/services.py:862-873 | `on_shutdown` follows `on_stop`, unless that failed |
| Lifecycles.Service.ServiceReset | mode/services.py:949-956 | a reset counts and clears the flags of a service |
| Supervisors.Supervisor.RestartService | mode/supervisors.py:174-189 | a restart that the bucket admits restarts the subtree, with the calls of a stop, `on_restart` and a start; one that it refuses changes nothing, and ends the program |
| Supervisors.Supervisor.RestartDead | mode/supervisors.py:163-165 | one after the other, exactly the crashed services are restarted, or the first of them when there were too many; the others are as they were; the calls made are those of these restarts, in order |
| Supervisors.Supervisor.RestartAll | mode/supervisors.py:203-211 | all are stopped, with their whole subtrees, before any is restarted; then all are restarted in order, or the first of them; the calls made are exactly those of the stops and then those of the restarts |
| Supervisors.Supervisor.StopDead | mode/supervisors.py:217-220 | exactly the crashed services are stopped, with what is below them, and the calls made are exactly those of their stops |
| Supervisors.Supervisor.StopEach | mode/supervisors.py:167-172 | each service is stopped, with everything below it that a stop gets to, and the calls made are exactly those of their stops |
| Supervisors.HaltedAsAWhole | mode/services.py:857-873 | a service stopped like that is stopped as a whole if nothing below it was stopped before |
| Supervisors.Supervisor.StartEach | mode/supervisors.py:156-161 | each service is started, with everything below it that a start gets to, and the calls made are exactly those of their starts |
| Supervisors.StopsComeFirst | mode/supervisors.py:203-211 | under one-for-all every `on_stop` of a round comes before the first `on_restart`, and `on_restart` is called on the restarted services in the order of the group |
| Supervisors.Supervisor.RestartServices | mode/supervisors.py:200-232 | for each strategy, who is restarted, who is stopped and who is left alone, and exactly which hooks are called, in order |
| Supervisors.Supervisor.Pass | mode/supervisors.py:129-140 | one round: idle services are started, and exactly those the strategy names are restarted or stopped; the calls made are exactly those of the starts of the idle services, then of the stops, then of the restarts; each restart is one poured token |
| Supervisors.Supervisor.Round | mode/supervisors.py:117-140 | crashes and then one round take the group from one standing to the next: restarts so far, who is crashed, who is given up and stopped; a round tries exactly the restarts that fall due, up to one that is refused; a forfeiting round always succeeds and calls no `on_start` |
| Supervisors.Supervisor.Supervise | mode/supervisors.py:113-140 | over any schedule of crashes: it fails if and only if some restart that falls due finds no token in the bucket; if not, under one-for-one each service has one more restart for each round that found it crashed, under one-for-all one for each round with a crash, and nobody is left crashed; under a forfeiting strategy no `on_start` is called again, and of those that were running exactly those given up are stopped |
| Supervisors.ManyToRestart | mode/supervisors.py:132-140 | how many restarts fall due in a round: those that crashed, all, or none |
| Supervisors.AllForOneDue | mode/supervisors.py:203-211 | under one-for-all every service gets the same number of restarts, so equal counts stay equal |
| Supervisors.DeadOnesAre | mode/supervisors.py:132-137 | the list a round restarts holds exactly the started services that have crashed |
| Supervisors.Supervisor.RestartsInWindow | mode/supervisors.py:174-189 | in any window of length T at most `2 * over + max_restarts * T` restarts are admitted |
| TokenBuckets.TokenBucket.Tokens | mode/utils/times.py:180-189 | refills the bucket up to its capacity, and moves its clock only when it was not full |
| TokenBuckets.TokenBucket.Pour | mode/utils/times.py:166-172 | pours exactly when the refilled bucket holds enough, and otherwise takes nothing |
| TokenBuckets.TokenBucket.Enter | mode/utils/times.py:142-148 | enters with a token, raises, enters after a sleep that takes no token, or fails at rate zero; the sleep is exactly as long as it takes until a token can be poured |
| TokenBuckets.EntrySleepsRight | mode/utils/times.py:142-148 | which of the four ways an entry goes; left alone, the bucket lets a token be poured exactly from the end of the sleep on |
| TokenBuckets.RefillNeverTakes | mode/utils/times.py:180-189 | looking at the tokens never takes any away and never turns the clock of the bucket back, even if the clock of the system goes back; then it gives none either |
| TokenBuckets.PouredSinceConstruction | mode/utils/times.py:157-189 | since its construction a bucket has poured at most its capacity and what it has earned |
| TokenBuckets.PouredInWindow | mode/utils/times.py:166-189 | in any window it pours at most twice its capacity and what it earns in the window, and at most once its capacity if it was not full at the start |
| TokenBuckets.AnyWindow | mode/utils/times.py:166-189 | the same for a window anywhere in a run from construction |
| TokenBuckets.SingleBoundExactly | mode/utils/times.py:181-188 | one capacity and what is earned bound every run from a time on if and only if the bucket is not full then, or its clock is not behind, or its rate is zero, or it holds less than one token |
| TokenBuckets.WindowBoundIsAttained | mode/utils/times.py:185-188 | the second capacity is real: for every whole capacity there are runs that pour exactly the bound |
| TokenBuckets.NegativeAmountOverfills | mode/utils/times.py:166-172 | pouring a negative amount always succeeds, and keeps within the capacity if and only if the refilled bucket has room for it |
| TokenBuckets.ExpectedTimeIsExact | mode/utils/times.py:174-178 | a pour succeeds exactly from the expected time on, counted from the last refill, if the amount fits the capacity, and never otherwise |
| TokenBuckets.SleepingIsRight | mode/utils/times.py:67-71 | after a failed pour, sleeping for at least the expected time is exactly what makes the next one succeed |
| TokenBuckets.AdmittedArePoured | mode/utils/times.py:142-148 | with `raises` as many enter as tokens are poured |
| TokenBuckets.WithoutRaisesAllAreAdmitted | mode/utils/times.py:142-148 | without it everybody enters at any rate but zero; at rate zero, as many as tokens are poured |
| Timers.Timer.Tick | mode/timers.py:97-143 | the sleep time handed out, the new wakeup time and all counters |
| Timers.Timer.Iterate | mode/timers.py:78-83 | the sleep times of the loop, and what it counts, for arbitrary oversleeps and running times of the consumer |
| Timers.SleepsInRange | mode/timers.py:49-53 | whatever the clock does, every sleep time is within the limits if and only if the correction is not negative or does not apply |
| Timers.CorrectionIsLimited | mode/timers.py:87-95 | a correction is made in full if it is within the limit and otherwise up to the limit itself; it never applies if the limit is the interval or more; with a negative limit it is always that limit, in the wrong direction |
| Timers.CountersTell | mode/timers.py:97-143 | over any number of rounds: which sleeps are counted as late or early and which rounds as overlaps, by how long they took |
| Timers.EachSleepIsCorrected | mode/timers.py:100-108 | from the second round on a sleep is the interval corrected by the drift of the sleep before, without the time the consumer took |
| Timers.PairOfSleeps | mode/timers.py:87-95 | two sleeps in a row with an unclamped correction add up to two intervals and the second oversleep alone |
| Timers.DriftOfManySleeps | mode/timers.py:87-108 | over any number of rounds with unclamped corrections the timer drifts by every other oversleep only |
| Timers.ConstantOversleep | mode/timers.py:78-143 | with a constant oversleep that may be corrected, n rounds sleep n intervals and half as many oversleeps, rounded up |
| FlowControlQueues.EveryRun | mode/utils/queues.py:120-173 | over every run of puts, gets and clears, for every callback: high reports and drop calls strictly alternate, the callback is pending exactly when a drop is owed, and each report is on its side of the thresholds |
| FlowControlQueues.HighsMinusDrops | mode/utils/queues.py:129-164 | the number of highs minus the number of drops is 1 if the callback is pending and 0 otherwise |
| FlowControlQueues.ThresholdsAre | mode/utils/queues.py:186-192 | a size reaches the high threshold exactly if one more is more than four fifths of the maximum size, and is at most the drop threshold exactly up to two fifths of it |
| FlowControlQueues.ThresholdsInOrder | mode/utils/queues.py:186-192 | the drop threshold is at most the high one if and only if the maximum size is at least -1 |
| FlowControlQueues.AlwaysHighUpToOne | mode/utils/queues.py:129-138 | for a callback that is not pending, an empty queue is under high pressure if and only if its maximum size is at most 1, and then every queue is |
| FlowControlQueues.FlowControlQueue.PutNowaitEnhanced | mode/utils/queues.py:120-138 | reports high pressure exactly at the first put that finds it, before the item is added |
| FlowControlQueues.FlowControlQueue.MaybeEndorsePressureDrop | mode/utils/queues.py:146-164 | one callback is called at or below the threshold, all of them on an empty queue, each once, and none otherwise |
| FlowControlQueues.FlowControlQueue.GetNowait | mode/utils/queues.py:171-173 | callbacks first, then the oldest item, if any |
| FlowControlQueues.FlowControlQueue.Clear | mode/utils/queues.py:117-118 | empties the queue and keeps the pending callbacks |
| Trees.Node.New | mode/utils/trees.py:59-67 | the new node hangs below, and shares the root |
| Trees.Node.Reattach | mode/utils/trees.py:69-74 | refused, with nothing changed, when the root or parent would be the node itself; afterwards the walk up ends if the node was not on its new parent's walk, and comes back to the node if it was |
| Trees.Node.Detach | mode/utils/trees.py:76-82 | the node leaves the parent it has, whatever the argument |
| Trees.StaleRootsLetACycleIn | mode/utils/trees.py:69-82 | a detach and a reattach that the guards allow make two nodes each other's parent |
| Trees.AsGraph | mode/utils/trees.py:120-133 | for every tree with pairwise distinct labels the loop ends with exactly the parent-to-child edges, in order, and no other key |
| Trees.EdgesUnfold | mode/utils/graphs/graph.py:87-95 | the graph of a tree unfolds into that tree again, at every node |
| Trees.ValencyInTree | mode/utils/graphs/graph.py:87-95 | on that graph the valency of a node is the number of its proper descendants |

## Left out

- DependencyGraphs.DependencyGraph.ValencyOf: takes the finite tree of its calls as a ghost argument, because on a graph with a reachable cycle the source recurses without end; `UnfoldsExactlyOffCycles` says when that tree exists.
- DependencyGraphs.DependencyGraph.Topsort: closed graphs only; a successor that is not a key is a KeyError in the source.
- ExitStacks.FixExceptionContext: takes the walk as a ghost argument, up to its first stop, because without one the source loops for ever; `WalkEndsExactly` says when there is one.
- ExitStacks.ExitStack.FixRaised: a callback that raises again an exception that is already active or belongs to another callback, for which the walk need not end.
- ExitStacks.ExitStack.CallExit: the same.
- ExitStacks.ExitStack.Unwind: the same.
- ExitStacks.ExitStack.Exit: the same; and the sync and the async exit differ only in awaiting callbacks that are not sync, so one method stands for both; what other tasks do during such an await is not modelled, nor are tracebacks and exception types.
- Services.Service.Start: hooks that change flags or add children while starting, exceptions of hooks with the exit stacks they unwind, tasks and futures.
- Services.Service.Stop: waiting for the shutdown signal, the futures, the exit stacks, and children whose stop is cancelled or fails.
- Supervisors.Supervisor.RestartService: `replacement`, and a bucket without `raises`.
- Supervisors.Supervisor.RestartAll: `stop_services` stops concurrently in the source; here one after the other, in list order.
- Supervisors.Supervisor.StopDead: the same.
- Supervisors.Supervisor.StopEach: the same.
- Supervisors.Supervisor.RestartServices: `stop_services` stops concurrently in the source; here one after the other, in list order.
- Supervisors.Supervisor.Pass: `replacement`, crashes during a round, and supervisors without `raises`.
- Timers.Timer.Iterate: runs for a given number of rounds; the loop of the source has no end.
- FlowControlQueues.FlowControlQueue.GetBegins: an item that arrives while `get` waits is taken by a later `GetNowait`.
- Stampede runs are named by the caller that began them; event loops, threads and weak references are not modelled.
- Floating-point rounding: times, rates and ratios are exact reals.
- `SupervisorStrategy.discard` and `insert`: the supervised group is fixed.
- `ServiceThread`, `Worker`, event loop adapters and signal handlers: foreign calls and I/O.
- `ThrowableQueue`, `FlowControlEvent`, `LRUCache`, `LocalStack`, collections, proxies, locals, text and import helpers: real, but easy.
- `mode/signals.py` and type introspection: they rest on weak references and on Python's typing internals.
- `Node.traverse`, `path` and `depth`, `DependencyGraph.update`, `connect`, `edges` and DOT output: no hard property of their own.
