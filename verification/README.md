# The open-coroutine runtime, modelled in Dafny

This project models the core of the `open-coroutine` runtime (`core/src`) and proves what its parts keep over
whole runs: the work-stealing queues, the life of a coroutine and the scheduler that moves coroutines between
its containers, the bracket around a hooked system call, the coroutine pool, the interest records of the
selector, and the retry loops around a socket read or write. `dafny verify dfyconfig.toml` checks all of it.

Library containers (`SkipMap`, `Injector`, the `st3` worker, `BinaryHeap`, `DashMap`) are taken at their abstract
meaning. Coroutine bodies, task functions, the kernel, the random start of a steal scan and the choice of the
ready queue are left open: every theorem holds for all of them. Parts of the source that update state in place
are classes whose methods state the whole new state; a `View()` gives their value, and the properties of runs
are proved about that value. A loop of the source that need not end is followed for a given number of passes,
rounds or wake-ups, and its method says what holds when it has come back and what holds while it has not.

## How the files hang together

| files | part of the runtime |
|---|---|
| `Basics`, `Clocks`, `SkipMaps` | saturating arithmetic, a clock that never goes back, buckets in key order |
| `OrderedQueues`, `OrderedWorkSteal` | one call on the ordered work-stealing queues: on values, and in place |
| `OrderedRuns`, `OrderedPops`, `OrderedOverflow`, `OrderedFairness`, `OrderedStable` | what holds over all runs of these queues |
| `WorkSteal`, `WorkStealRuns`, `WorkStealOrder` | the unordered queues: one call, what holds over all runs, and which item is given |
| `CoroutineStates`, `Monitors` | the state cell of a coroutine, and the preemption monitor that listens to it |
| `CoroutineBodies`, `SyscallBracket` | what a body may do between two switches; a hooked system call, its waits, and `sleep` |
| `ScheduleMoves`, `Turns`, `Scheduler`, `ScheduleFindings` | the containers of the scheduler, `check_ready`, `do_schedule`, the turns of the coroutines, and two surprising runs |
| `TaskAccounts`, `CoPool` | the tasks and workers of one pool, stopping it |
| `Selector` | the selector's records against a kernel whose calls may fail |
| `NioLoops` | single-buffer read and write on a non-blocking socket |

## What the code turns out to do

Some properties one would expect fail. In each case the code is modelled as it is, a run from a new state shows
the failure, and the exact condition is proved.

- A thief does not lower its victim's `len`. So an ordered `pop` may return nothing while a sibling holds
  items (`EmptyHandedWhileItemsExist`); it does so exactly under the condition of `PopNoneIff`. The unordered
  queue reads the length off the queue itself, and there the property always holds (`PlainPop`).
- For the same reason a handle may look full without holding anything. Its next `push` then never ends
  (`EndlessPush`): the overflow loop ends if and only if the handle holds at least half of its `len`
  (`OverflowEndsIff`).
- `stop` may end idle with tasks still queued (`FilledByOthers`): if coroutines submitted through `submit_co` fill
  the whole pool when it begins, no worker can join, and when they finish the running count is zero
  (`StopUndrained`, from every such state). In every other state the tasks are drained (`Stop`, with the
  condition `Drainable`).
- The monitor's set loses track of the running coroutines when two of them get the same node (`SameNodeTwice`). A
  change keeps the set exact if and only if it does not clash (`MirrorKeptIff`).
- `try_resume` leaves a timer behind, and a coroutine that waits again, until later, is timed out by it before its
  deadline (`LeftoverIsReached`, `TimedOutEarly`). It is timed out early exactly if it has such a leftover timer
  that is due (`EarlyIffLeftover`). A hooked `sleep` is still never early (`Sleep`).
- `until` inside a system call leaves its deadline in a thread-local queue, and a plain `suspend`, even of another
  coroutine, takes it for its own (`SuspendsUntilStale`). A plain `suspend` waits in the heap if and only if
  there is such a deadline and it is still to come (`RunTaken`).

Other particulars, which the contracts state outright:

- The socket loops never accumulate: any success resets `errno`, which ends the loop, so every inner call asks
  for the whole buffer. An empty buffer gives -1 without asking the kernel at all, and a wait that fails gives
  0. When the result is -1 is stated as an if-and-only-if (`ReadBuf`, `WriteBuf`).
- A recorded descriptor that is closed behind the selector's back stays recorded and unwatched: adding it again
  succeeds without asking the kernel, and deleting it fails (`StaysUnwatched`). The kernel watches exactly the
  recorded descriptors that were not lost in this way (`AnyRun` of the selector).
- A failed `del_event` has already dropped both token records; the interest itself stays recorded (`DelEvent`).
- A task that was lost with its coroutine keeps its entry among the running tasks, so cancelling it later marks
  nothing (`TryCancelTask`).
- The documentation of the ordered queue speaks of moving half of the low-priority tasks on overflow. The code
  goes round the buckets from the lowest precedence up and takes one item from each per pass; `OverflowMoves`
  and `BalancedIsUnique` follow the code.
- The documented state diagram lacks three arrows the code has: suspended to running, cancelling, and a change of
  phase inside a system call (`ChangesFollowArrows`).

## Model

| member | source | states |
|---|---|---|
| `SkipMaps.PushBackMeaning` | core/src/common/ordered_work_steal.rs:82-90 | pushing under a priority extends exactly that priority's queue and every count by what was pushed |
| `SkipMaps.PopFirstMeaning` | core/src/common/ordered_work_steal.rs:98-111 | a pop in key order takes the oldest item of the smallest key that has one, and nothing else |
| `SkipMaps.PopFirstFails` | core/src/common/ordered_work_steal.rs:98-112 | it fails exactly when no bucket holds anything |
| `OrderedQueues.FirstVictim` | core/src/common/ordered_work_steal.rs:391-410 | the scan from a random start stops at the first sibling that holds an item, and passes only empty ones |
| `OrderedQueues.WorkerCapacityIsLeast` | core/src/common/ordered_work_steal.rs:293-294 | the capacity of a worker is the least power of two that is large enough |
| `OrderedQueues.OverflowEndsIff` | core/src/common/ordered_work_steal.rs:305-325 | the overflow loop ends after some number of passes if and only if the handle holds as many items as it is to give away |
| `OrderedQueues.FrontsBalanced` | core/src/common/ordered_work_steal.rs:305-325 | at every point of the loop the fronts taken are a round robin from the lowest precedence |
| `OrderedQueues.OverflowingStep` | core/src/common/ordered_work_steal.rs:309-319 | moving one more front keeps the relation between the state before the overflow and the state on the way |
| `OrderedWorkSteal.OrderedWorkStealQueue.constructor` | core/src/common/ordered_work_steal.rs:61-69 | new queues are empty, with the given number of local queues and capacity |
| `OrderedWorkSteal.OrderedWorkStealQueue.PushShared` | core/src/common/ordered_work_steal.rs:82-90 | the new state of the shared queue and its hand-kept length |
| `OrderedWorkSteal.OrderedWorkStealQueue.PopShared` | core/src/common/ordered_work_steal.rs:93-113 | the loop over the buckets is the pop in key order, guarded by the length |
| `OrderedWorkSteal.OrderedWorkStealQueue.PopLocal` | core/src/common/ordered_work_steal.rs:450-461 | the loop over the handle's own buckets takes the same item as the specification |
| `OrderedWorkSteal.OrderedWorkStealQueue.TrySteal` | core/src/common/ordered_work_steal.rs:397-442 | one sibling is robbed exactly when it holds an item; the own queue, which is not skipped, is harmless |
| `OrderedWorkSteal.OrderedWorkStealQueue.StealScan` | core/src/common/ordered_work_steal.rs:389-445 | under the lock the scan steals once, from the first non-empty sibling, if the handle may steal, and gives the lock back |
| `OrderedWorkSteal.OrderedWorkStealQueue.Pop` | core/src/common/ordered_work_steal.rs:379-448 | the whole `pop` is the pop of the specification, for every tick and random start |
| `OrderedWorkSteal.OrderedWorkStealQueue.OverflowPass` | core/src/common/ordered_work_steal.rs:309-319 | one pass over the buckets takes at most one item from each, oldest first, lowest precedence first |
| `OrderedWorkSteal.OrderedWorkStealQueue.PushToGlobal` | core/src/common/ordered_work_steal.rs:305-325 | the loop has ended after the given passes exactly when these find enough items; then half of `len` and the new item have moved |
| `OrderedWorkSteal.OrderedWorkStealQueue.Push` | core/src/common/ordered_work_steal.rs:286-303 | a push that comes back has pushed locally or overflowed; it comes back at once unless the handle looks full |
| `OrderedRuns.SharedPopKeeps` | core/src/common/ordered_work_steal.rs:93-113 | nothing is lost, the length stays exact and is never clipped at zero, and only an empty queue gives nothing |
| `OrderedRuns.LocalPopKeeps` | core/src/common/ordered_work_steal.rs:450-461 | nothing is lost and the handle's counter is never clipped at zero |
| `OrderedRuns.WorkerNeverFull` | core/src/common/ordered_work_steal.rs:291-303 | the "worker full" fallback of push is never taken |
| `OrderedRuns.OverflowKeeps` | core/src/common/ordered_work_steal.rs:305-325 | exactly half of `len`, rounded down, leaves the handle; nothing is lost and the counter is not clipped |
| `OrderedRuns.StealMeaning` | core/src/common/ordered_work_steal.rs:405-441 | a steal takes at least one item from the front of the victim's smallest key into the same key of the thief, within the thief's capacity |
| `OrderedRuns.PopKeeps` | core/src/common/ordered_work_steal.rs:379-448 | a whole `pop` keeps the invariant and every item it does not return |
| `OrderedRuns.StepKeeps` | core/src/common/ordered_work_steal.rs:286-461 | one completed call of any handle keeps the invariant and neither loses nor duplicates an item |
| `OrderedRuns.InvInRun` | core/src/common/ordered_work_steal.rs:286-461 | the invariant on all counters holds in every state of every run |
| `OrderedRuns.NothingLost` | core/src/common/ordered_work_steal.rs:82-461 | in every run of any number of handles, pushed items are popped items plus held items as multisets per priority; the shared length is exact, each handle holds at most `len`, and `len` is at most the capacity |
| `OrderedPops.ScanCovers` | core/src/common/ordered_work_steal.rs:391-396 | the scan reaches every local queue from every start |
| `OrderedPops.PopNoneIff` | core/src/common/ordered_work_steal.rs:379-448 | `pop` returns nothing exactly when the shared and the own queue are empty and either all local queues are, or the handle's own `len` forbids stealing |
| `OrderedPops.PopNoneMeansEmpty` | core/src/common/ordered_work_steal.rs:379-448 | with an exact `len` and a capacity of at least one, nothing returned means that everything is empty |
| `OrderedPops.StealThenPop` | core/src/common/ordered_work_steal.rs:405-441 | stealing and popping returns the victim's oldest item of its smallest key, moves at most half of that bucket rounded up, and leaves the rest in order |
| `OrderedPops.PopSteals` | core/src/common/ordered_work_steal.rs:379-448 | a `pop` on an empty own queue that may steal takes so from the first non-empty sibling |
| `OrderedPops.PopTakesOwn` | core/src/common/ordered_work_steal.rs:379-388 | a `pop` whose tick is no multiple of 61, or that finds the shared queue empty, takes the oldest item of the smallest key of its own queue, and nothing else changes |
| `OrderedPops.PopTakesShared` | core/src/common/ordered_work_steal.rs:379-448 | a `pop` whose tick is a multiple of 61, or that has nothing of its own and nobody to steal from, takes the oldest item of the smallest key of the shared queue, and no local queue changes |
| `OrderedOverflow.BalancedIsUnique` | core/src/common/ordered_work_steal.rs:305-325 | the round robin determines how many items each bucket gives |
| `OrderedOverflow.OverflowIsDetermined` | core/src/common/ordered_work_steal.rs:305-325 | two completed overflows of the same push leave the same handles and the same queue under every key |
| `OrderedOverflow.OverflowMoves` | core/src/common/ordered_work_steal.rs:305-325 | the items that leave a bucket are its oldest in order, and a higher precedence gives no more than a lower one that still has items |
| `OrderedOverflow.OverflowNeedsItems` | core/src/common/ordered_work_steal.rs:305-325 | a completed overflow shows that the handle held half of its `len` |
| `OrderedOverflow.PushTakesRoom` | core/src/common/ordered_work_steal.rs:286-303 | a `push` puts the item at the tail of its key's local queue exactly while `len` is below the capacity, and overflows otherwise |
| `OrderedOverflow.EmptyHandedWhileItemsExist` | core/src/common/ordered_work_steal.rs:379-448 | a run from new queues whose last `pop` returns nothing while a sibling holds an item |
| `OrderedOverflow.EndlessPush` | core/src/common/ordered_work_steal.rs:305-325 | a run from new queues after which the next push on a handle never ends |
| `OrderedFairness.ForcedWithin61` | core/src/common/ordered_work_steal.rs:328-335 | among any 61 consecutive ticks one forces a look at the shared queue, across the wrap of the 32-bit counter too |
| `OrderedFairness.PopAndShared` | core/src/common/ordered_work_steal.rs:379-448 | a `pop` takes the first shared item or leaves the shared queue alone, takes it when the tick forces it, and ticks only its own handle |
| `OrderedFairness.FollowStep` | core/src/common/ordered_work_steal.rs:93-113 | a call either takes the followed shared item or brings it nearer, and every pop of the given handle uses up one of the allowed pops |
| `OrderedFairness.NoStarvation` | core/src/common/ordered_work_steal.rs:379-448 | a shared item with r items ahead leaves within 61(r+1) pops of any one handle, after exactly the items of its key that were before it, unless a higher precedence arrives |
| `OrderedStable.HoldsPop` | core/src/common/ordered_work_steal.rs:450-461 | popping the buckets is popping the list of arrivals: smallest key, first in first out |
| `OrderedStable.StablePriorityQueue` | core/src/common/ordered_work_steal.rs:286-461 | every sequence of pushes and pops of a handle that is alone and never over capacity returns what a stable priority queue returns |
| `WorkSteal.WorkStealQueue.constructor` | core/src/common/work_steal.rs:34-43 | new unordered queues are empty and of the worker's rounded capacity |
| `WorkSteal.WorkStealQueue.PushShared` | core/src/common/work_steal.rs:56-61 | the item goes to the tail of the shared queue and is counted |
| `WorkSteal.WorkStealQueue.PopShared` | core/src/common/work_steal.rs:64-81 | the head of the shared queue is taken and the length lowered, or nothing if the length is zero |
| `WorkSteal.WorkStealQueue.PushLocal` | core/src/common/work_steal.rs:213-225 | a full local queue gives its older half and then the new item to the shared queue, in order |
| `WorkSteal.WorkStealQueue.PopLocal` | core/src/common/work_steal.rs:287-290 | the local pop is that of the specification, which takes the oldest item by the law of `PopOwnOrder` |
| `WorkSteal.WorkStealQueue.StealScan` | core/src/common/work_steal.rs:291-332 | the scan robs the first non-empty sibling, if there is one; an empty handle may always steal |
| `WorkSteal.WorkStealQueue.PopItem` | core/src/common/work_steal.rs:279-335 | the whole unordered `pop` is the pop of the specification, whose choice of item the four order laws fix |
| `WorkStealRuns.StealCounts` | core/src/common/work_steal.rs:311-328 | a steal takes at least one and at most half of the victim's items, rounded up, from its front, and loses nothing |
| `WorkStealRuns.PlainPop` | core/src/common/work_steal.rs:279-335 | an unordered `pop` returns nothing exactly when the shared queue and all local queues are empty, for every tick and start |
| `WorkStealRuns.PlainStep` | core/src/common/work_steal.rs:56-335 | one call neither loses nor duplicates an item and keeps the shared length exact |
| `WorkStealRuns.PlainNothingLost` | core/src/common/work_steal.rs:56-335 | in every run each item was pushed as often as it was popped or is still held |
| `WorkStealOrder.PushOrder` | core/src/common/work_steal.rs:213-225 | a push goes to the tail of the own queue; a full one first gives its older half, rounded down and oldest first, and then the new item to the tail of the shared queue |
| `WorkStealOrder.PopOwnOrder` | core/src/common/work_steal.rs:279-290 | a `pop` whose tick is no multiple of 61, or that finds the shared queue empty, takes the oldest item of the own queue and nothing else |
| `WorkStealOrder.PopStealOrder` | core/src/common/work_steal.rs:291-328 | a `pop` on an empty own queue takes the older half of the first non-empty sibling, rounded up and at most half of the own capacity, returns the oldest and keeps the rest in order |
| `WorkStealOrder.PopSharedOrder` | core/src/common/work_steal.rs:279-335 | a `pop` whose tick is a multiple of 61, or that finds all local queues empty, takes the head of the shared queue |
| `WorkStealOrder.FirstInFirstOut` | core/src/common/work_steal.rs:213-335 | every sequence of pushes and pops of a handle that is alone and never over capacity returns what a first-in-first-out queue returns |
| `WorkStealOrder.SharedNeverStarves` | core/src/common/work_steal.rs:228-285 | a shared item with idx items before it leaves within 61(idx+1) pops of any one handle, after exactly these items, whatever the others do |
| `CoroutineStates.ChangesFollowArrows` | core/src/coroutine/state.rs:34-198 | a call can change one state into another if and only if there is an arrow, and never leaves a suspension before its deadline |
| `CoroutineStates.ChangesExactly` | core/src/coroutine/state.rs:34-198 | a given call changes the state if and only if there is an arrow to the state it asks for and a suspension is over; when it succeeds without a change, and that it is refused otherwise |
| `CoroutineStates.TerminalIsFinal` | core/src/coroutine/state.rs:34-198 | complete, failed and cancelled are never left, whatever is called |
| `CoroutineStates.SyscallIsLeftByRunning` | core/src/coroutine/state.rs:61-141 | a coroutine stays in its system call, under the same name, until it is told to run |
| `CoroutineStates.Coroutine.BecomeReady` | core/src/coroutine/state.rs:34-51 | the outcome and new state of the transition table; listeners hear of it exactly when the state changes |
| `CoroutineStates.Coroutine.BecomeRunning` | core/src/coroutine/state.rs:61-88 | the same for running, which keeps the wake-up phases of a system call |
| `CoroutineStates.Coroutine.BecomeSuspended` | core/src/coroutine/state.rs:94-107 | the same for suspending, with the given deadline |
| `CoroutineStates.Coroutine.EnterSyscall` | core/src/coroutine/state.rs:114-141 | the same for entering a system call or changing its phase |
| `CoroutineStates.Coroutine.Cancel` | core/src/coroutine/state.rs:147-160 | the same for cancelling |
| `CoroutineStates.Coroutine.Finish` | core/src/coroutine/state.rs:166-179 | the same for completing |
| `CoroutineStates.Coroutine.Fail` | core/src/coroutine/state.rs:185-198 | the same for failing |
| `Monitors.MirrorKeptIff` | core/src/monitor.rs:582-611 | a state change keeps one node per running coroutine if and only if it does not clash: its node is new, `submit` does not fail for a coroutine that starts to run, no other coroutine's node is removed, and no start or stop happens unheard on the monitor's thread |
| `Monitors.SameNodeTwice` | core/src/monitor.rs:582-611 | two coroutines that start with the same node leave one node for both, so the set is no mirror any more |
| `Monitors.MonitorMirrorsRunning` | core/src/monitor.rs:582-611 | over any sequence of transition calls on any coroutines, with distinct submit timestamps, the notify set holds exactly one node per running coroutine |
| `Monitors.Monitor.HearStateChange` | core/src/monitor.rs:582-611 | the listener's effect on the set and on the coroutine's stored node, with a failing `submit` and with the early return on the monitor's thread |
| `Monitors.Monitor.Transition` | core/src/coroutine/state.rs:16-198 | a refused call changes nothing, and listeners hear only of changes |
| `SyscallBracket.Caller.ParkUntil` | core/src/coroutine/suspender.rs:22-35 | the coroutine is handed over in its waiting state and comes back in the wake-up phase of the same call; the deadline stays in the thread-local queue |
| `SyscallBracket.Caller.WaitJust` | core/src/net/event_loop.rs:225-265 | one wait parks once, in a waiting phase, with the deadline that `timeout` gives at a clock reading made meanwhile, and ends in phase executing with nothing refused |
| `SyscallBracket.Caller.HookedCall` | core/src/syscall/unix/mod.rs:95-118 | entering, any number of waits ended by an event or a timer, and leaving bring the coroutine back to running; no state change is refused, it is parked only in this call, and each stretch between two switches is a legal body for the scheduler |
| `SyscallBracket.Caller.TimedWaitJust` | core/src/net/event_loop.rs:211-223 | it comes back with a selector error, or from the first pass whose clock reading has reached the deadline, and not before, through any number of spurious wake-ups; no pass waits longer than 10 ms |
| `SyscallBracket.Caller.Sleep` | core/src/syscall/unix/sleep.rs:23-46 | a hooked `sleep` comes back, in running, exactly from the first wait that begins at or after its deadline or ends with a selector error |
| `CoroutineBodies.WaitIsLegal` | core/src/net/event_loop.rs:225-243 | entering a call, or being woken in it, and waiting is a legal body that ends in the waiting phase |
| `CoroutineBodies.EndedComesBack` | core/src/coroutine/korosensei.rs:457-495 | whatever a legal body ends with, the coroutine comes back suspended, waiting in a call, or for good |
| `ScheduleMoves.PutReadyKeeps` | core/src/scheduler.rs:207-234 | putting a coroutine in hand into the ready queue keeps every coroutine in exactly one fitting place |
| `ScheduleMoves.PutHeapKeeps` | core/src/scheduler.rs:322-333 | the same for the heap, with the item's timestamp |
| `ScheduleMoves.PutTableKeeps` | core/src/scheduler.rs:313-321 | the same for the system call table, with its timer |
| `ScheduleMoves.TakeReadyKeeps` | core/src/scheduler.rs:293-299 | a coroutine taken from the ready queue is in a state that can run, and what it was promised to wait for has passed |
| `ScheduleMoves.TakeHeapKeeps` | core/src/scheduler.rs:359-369 | one taken from the heap is suspended with the heap's timestamp |
| `ScheduleMoves.TakeTableKeeps` | core/src/scheduler.rs:223-234 | one taken from the table waits in a system call and has its timer |
| `ScheduleMoves.NextResumeIsDue` | core/src/scheduler.rs:322-333 | in a trace without early resumes, the resume after a yield until d is at d or later |
| `ScheduleMoves.PlacesAreExact` | core/src/scheduler.rs:207-388 | between calls each submitted coroutine is in exactly one of ready, heap, table, finished and dropped, with the state that fits |
| `ScheduleMoves.ParkedHasTimer` | core/src/scheduler.rs:313-321 | every coroutine in the table has a timer for exactly its deadline |
| `ScheduleMoves.TimersCoverTable` | core/src/scheduler.rs:371-388 | without an expired suspension or timer, every deadline waited for is in the future |
| `ScheduleMoves.EarlyOnlyByLeftover` | core/src/scheduler.rs:371-388 | a coroutine is timed out before its deadline only if a leftover timer of it is due, and is timed out whenever such a timer is due at the first reading |
| `ScheduleMoves.EarlyIffLeftover` | core/src/scheduler.rs:371-388 | with one clock reading, it is timed out before its deadline if and only if it has a leftover timer that is due; at its deadline it always is |
| `Turns.NextTurnIsDue` | core/src/scheduler.rs:322-333 | in a run whose trace has no early resume, the next turn of a coroutine is at or after the time it asked for in its last one |
| `Turns.TurnsAreDue` | core/src/scheduler.rs:281-357 | the same for all turns of a run |
| `Schedulers.Scheduler.Submit` | core/src/scheduler.rs:207-214 | a new coroutine is ready, all others stay where they are |
| `Schedulers.Scheduler.TryResume` | core/src/scheduler.rs:223-234 | a coroutine in the table becomes ready in phase callback, leaving its timer; any other id changes nothing; it never fails |
| `Schedulers.Scheduler.WakeEarliest` | core/src/scheduler.rs:359-369 | a coroutine with the earliest deadline is made ready exactly when the clock reading has reached it |
| `Schedulers.Scheduler.WakeSuspended` | core/src/scheduler.rs:359-369 | the first loop moves expired coroutines to ready in the order of their deadlines and leaves none that expired by its first reading |
| `Schedulers.Scheduler.FireTimer` | core/src/scheduler.rs:371-388 | a due timer times out its coroutine if it is still in the table, and is just dropped otherwise |
| `Schedulers.Scheduler.WakeTimedOut` | core/src/scheduler.rs:371-388 | the second loop leaves no timer that was due by its first reading and every timer that was not due by its last; it takes out of the table only coroutines with a due timer, and a timer that has fired leaves nobody in the table |
| `Schedulers.Scheduler.CheckReady` | core/src/scheduler.rs:359-388 | after `check_ready` nothing parked has a deadline at or before its first clock reading; suspended coroutines become ready in deadline order; each coroutine timed out had a due timer, before its deadline only a leftover one, and each with a timer due at the first reading is timed out; timers that are not due stay, and nothing changes if nothing is due; nothing fails |
| `Schedulers.Scheduler.BodyEnds` | core/src/coroutine/korosensei.rs:457-495 | what a yield, a cancel, a return or a panic makes of the coroutine, with the thread-local deadline that is used |
| `Schedulers.Scheduler.StartRunning` | core/src/coroutine/mod.rs:204-213 | a taken coroutine is never refused to run, and never before the time it asked for |
| `Schedulers.Scheduler.Resume` | core/src/coroutine/mod.rs:204-219 | resuming any legal body, with any other code acting meanwhile, keeps every other coroutine in its place and brings the coroutine back in a state the body's end allows; the resume is entered in the trace with its clock reading |
| `Schedulers.Scheduler.RunBody` | core/src/coroutine/korosensei.rs:457-495 | a given legal body ends with the state and the thread-local deadlines its end calls for, whatever others do meanwhile |
| `Schedulers.Scheduler.ParkSuspended` | core/src/scheduler.rs:322-333 | a suspended coroutine goes into the heap exactly when its deadline is to come, else to the tail of ready |
| `Schedulers.Scheduler.Dispatch` | core/src/scheduler.rs:313-353 | every state a coroutine can come back in is dispatched, the other arms are unreachable, and no result is overwritten; a waiting one gets its timer, a suspended one is in the heap exactly if its deadline is to come, only a returned or panicked one is finished, only a cancelled one dropped; no other coroutine is parked or put away |
| `Schedulers.Scheduler.DropCancelled` | core/src/scheduler.rs:295-299 | a taken coroutine in the cancel set is dropped and its mark used up |
| `Schedulers.Scheduler.RunTaken` | core/src/scheduler.rs:309-354 | the trace gains the resume and the time asked for: that of `until` from running, or for a plain `suspend` the newest thread-local deadline; the latter waits in the heap if and only if that deadline exists and is to come; the results gain the coroutine exactly if it has returned or panicked |
| `Schedulers.Scheduler.RunOne` | core/src/scheduler.rs:293-354 | one round takes one ready coroutine; it is dropped if and only if it is in the cancel set, and has a turn otherwise; the results are exactly those of the coroutines finished since the call began, and nobody else is parked or put away |
| `Schedulers.Scheduler.DoSchedule` | core/src/scheduler.rs:281-357 | it never fails; returning with time left means nothing is ready and only deadlines after a clock reading of the last round remain; it returns with none exactly when a round begins with the time over; every other round takes one coroutine and leaves nobody else parked who was due; the results are those of exactly the coroutines finished, and whoever was dropped had been cancelled |
| `Schedulers.Scheduler.Perform` | core/src/scheduler.rs:207-393 | what one call from outside does: a submitted coroutine is known, a resumed one is ready and out of the table, a cancelled one marked, and the turns and drops of a `do_schedule` |
| `Turns.LeftForThen` | core/src/scheduler.rs:295-353 | over any two stretches of a run: a coroutine newly dropped was in the cancel set or cancelled itself in a turn, one newly finished has returned or panicked in a turn with the result it has |
| `Schedulers.Scheduler.AnyRun` | core/src/scheduler.rs:207-393 | after any sequence of calls every coroutine they submitted is known, every known one is in exactly one place with a fitting state, every one they cancelled is marked still or was dropped, nobody was dropped without having been cancelled nor finished without having returned or panicked, no coroutine had its next turn before the time its body had asked for, and each `do_schedule` took one coroutine per round until it returned |
| `ScheduleFindings.Deliver` | core/src/scheduler.rs:223-234 | an event or the own timer wakes a parked coroutine in exactly the phase the hooked call expects |
| `ScheduleFindings.Waits` | core/src/scheduler.rs:286-321 | a round with a coroutine that waits in a call is, if nothing is due, exactly the move from ready to the table with a new timer |
| `ScheduleFindings.LeftoverIsReached` | core/src/scheduler.rs:223-234 | for all deadlines d1 before d2, states from a new scheduler on: a coroutine waits until d1, is woken by an event, and waits until d2; nothing is due before d1, and at d1 its first timer is left over and due |
| `ScheduleFindings.RunsThrough` | core/src/scheduler.rs:286-321 | the scheduler's own methods, with a pass of `check_ready` before every step, come through these states if all clock readings are before d1 |
| `ScheduleFindings.TimedOutEarly` | core/src/scheduler.rs:371-388 | at d1 every pass of `check_ready` times that coroutine out, although it waits until d2 |
| `ScheduleFindings.SuspendsUntilStale` | core/src/coroutine/suspender.rs:22-51 | a run in which a plain `suspend` takes the deadline of another coroutine's system call |
| `TaskAccounts.BeganKeeps` | core/src/co_pool/mod.rs:422-434 | a task that begins was queued once and never started before |
| `TaskAccounts.EndedKeeps` | core/src/co_pool/mod.rs:434-444 | a task that ends has its result stored, or discarded if nobody waits, and there was none before |
| `TaskAccounts.HandedOutKeeps` | core/src/co_pool/mod.rs:282-284 | a result that is handed out is gone from the results for good |
| `TaskAccounts.CleanedUpKeeps` | core/src/co_pool/mod.rs:287-293 | cleaning up drops the stored result or marks the task, never both |
| `TaskAccounts.EndedMeans` | core/src/co_pool/mod.rs:434-444 | the result a task ended with is the one stored, unless nobody waits for it; all other results stay |
| `TaskAccounts.BeganMeans` | core/src/co_pool/mod.rs:422-433 | a task that begins leaves the queue in its order and is innermost on its coroutine; a cancelled one only leaves the queue |
| `TaskAccounts.TakenMeans` | core/src/co_pool/mod.rs:282-293 | a result taken is gone; cleaning up drops the result that is there or sees to it that none will be stored, and hands nothing out |
| `TaskAccounts.GoneMeans` | core/src/co_pool/creator.rs:32-39 | a coroutine that goes takes exactly the tasks it was in the middle of with it |
| `TaskAccounts.AtMostOnce` | core/src/co_pool/mod.rs:248-293 | no task is started twice, no result handed out twice, and results and the no-wait marks are disjoint |
| `CoPool.CoroutinePool.constructor` | core/src/co_pool/mod.rs:123-149 | a new pool runs, is empty and counts no worker |
| `CoPool.CoroutinePool.SubmitTask` | core/src/co_pool/mod.rs:248-279 | a task is queued under a fresh id exactly while the pool is running |
| `CoPool.CoroutinePool.SubmitCo` | core/src/co_pool/mod.rs:398-416 | a coroutine joins and is counted exactly when the count is below the maximum and it can be created |
| `CoPool.CoroutinePool.TryGrow` | core/src/co_pool/mod.rs:355-392 | a worker joins exactly when tasks wait, the count is below the maximum and it can be created |
| `CoPool.CoroutinePool.BeginTask` | core/src/co_pool/mod.rs:422-433 | a cancelled task is dropped and its mark used up, any other begins on this coroutine and is entered among the running tasks; accounts and counts stay right |
| `CoPool.CoroutinePool.EndTask` | core/src/co_pool/mod.rs:434-444 | the result the task ended with is stored under its id, or discarded if nobody waits; the "previous result" assert never fires |
| `CoPool.CoroutinePool.LeavePool` | core/src/co_pool/creator.rs:25-31 | the count goes down by one with the coroutine and is never clipped |
| `CoPool.CoroutinePool.RetireWorker` | core/src/co_pool/mod.rs:370-376 | when an idle worker retires, and that in a running pool the count stays at the minimum or above |
| `CoPool.CoroutinePool.AbortCo` | core/src/co_pool/creator.rs:32-39 | an aborted coroutine takes its running tasks with it and is replaced by a worker if tasks wait |
| `CoPool.CoroutinePool.DropCo` | core/src/scheduler.rs:295-299 | a coroutine dropped through the cancel set stays counted |
| `CoPool.CoroutinePool.TryTakeTaskResult` | core/src/co_pool/mod.rs:282-284 | the stored result is handed out and gone, otherwise nothing changes |
| `CoPool.CoroutinePool.CleanTaskResult` | core/src/co_pool/mod.rs:287-293 | the stored result is dropped, or the task marked and its cancel mark removed |
| `CoPool.CoroutinePool.TryCancelTask` | core/src/co_pool/mod.rs:457-492 | a task is marked for cancelling unless it is among the running tasks, which are those that run and those lost with their coroutine |
| `CoPool.CoroutinePool.TaskStep` | core/src/co_pool/mod.rs:422-444 | a step with a task: the queue gives one task, which is cancelled or runs on this coroutine; the innermost task ends with the result the step carries |
| `CoPool.CoroutinePool.CoStep` | core/src/co_pool/creator.rs:13-42 | a step in which a coroutine joins or leaves: when the pool grows, when a worker retires, and that an aborted or dropped one is gone |
| `CoPool.CoroutinePool.Step` | core/src/co_pool/mod.rs:248-492 | any step keeps the accounts and the count; in a stopping pool no task is added and waiting tasks stay attended |
| `CoPool.CoroutinePool.Stop` | core/src/co_pool/mod.rs:207-231 | the loop ends with a count of zero, with an error of a pass, or after the last pass with coroutines still counted; with a count of zero no coroutine is live, and no task is queued if workers could be created and the pool was not full of other coroutines at the start; if it was and they all end in the first pass, the loop ends so with all tasks queued; a failing pass leaves the pool stopping |
| `CoPool.CoroutinePool.StopUndrained` | core/src/co_pool/mod.rs:219-231 | from every state in which the condition fails there is a pass with which `stop` ends idle and leaves all tasks queued |
| `CoPool.FilledByOthers` | core/src/co_pool/mod.rs:398-416 | a run from a new pool of any size that ends so |
| `CoPool.AnyRun` | core/src/co_pool/mod.rs:248-492 | in every run of a pool the tasks are exactly those submitted, each in exactly one place, started at most once, handed out at most once; every result stored or handed out is the one carried by the step that ended its task; live coroutines are at most the count, which is at most the maximum, and equal to it unless one was dropped |
| `CoPool.EndHasStep` | core/src/co_pool/mod.rs:433-442 | whatever a task has ended with is what some step of the run that ended this task carries |
| `Selectors.Selector.AddReadEvent` | core/src/net/selector/mod.rs:81-96 | reading is recorded and watched, or nothing changed; the fallback registration succeeds only for a descriptor that was closed unnoticed; a direction that is recorded is not asked for again |
| `Selectors.Selector.AddWriteEvent` | core/src/net/selector/mod.rs:100-115 | the same for writing |
| `Selectors.Selector.DelEvent` | core/src/net/selector/mod.rs:119-130 | both directions are gone, or both stay recorded and the kernel is as it was; the token the descriptor was added with is freed; the token records go either way; a descriptor that was closed unnoticed is never deleted |
| `Selectors.Selector.DelReadEvent` | core/src/net/selector/mod.rs:137-153 | reading goes and writing stays, or both stay; the clean-up assert never fires |
| `Selectors.Selector.DelWriteEvent` | core/src/net/selector/mod.rs:160-176 | writing goes and reading stays, or both stay; the clean-up assert never fires |
| `Selectors.Selector.SelectEvents` | core/src/net/selector/mod.rs:66-75 | the loop over the events consumes each token once and drops exactly the token records of the descriptors hit, per direction |
| `Selectors.Selector.AddThenDelRead` | core/src/net/selector/mod.rs:81-153 | adding and deleting reading gives back kernel and records as they were and frees the token, and a lost descriptor is watched again |
| `Selectors.Selector.StaysUnwatched` | core/src/net/selector/mod.rs:81-130 | a lost descriptor stays unwatched through adding, which succeeds, and deleting, which fails |
| `Selectors.AnyRun` | core/src/net/selector/mod.rs:55-197 | after any sequence of calls, with kernel calls failing and descriptors closed unnoticed at any point, the records are what the successful adds and deletes have made of them, and the kernel watches each descriptor that was not closed unnoticed for exactly what is recorded, and no other; token records stay within the records |
| `NioLoops.GetTimeLimit` | core/src/syscall/unix/mod.rs:1110-1125 | the limit is the exact sum in ns if that is positive and fits, and otherwise no limit |
| `NioLoops.Socket.Again` | core/src/syscall/unix/mod.rs:491-506 | only "would block" and "interrupted" are retried; after the former the time left is what is left of the limit at a clock reading made meanwhile, and there is one wait of at most 10 ms and that time |
| `NioLoops.Socket.ReadLoop` | core/src/syscall/unix/mod.rs:471-507 | every call asks for the whole buffer and at most the last one moves anything; a call that would block is tried again only if it was made before the deadline, after one wait; an empty buffer gives -1 and no call, a failed wait gives 0, and otherwise the result is that of the last call, -1 only for another error or after the time limit |
| `NioLoops.Socket.ReadBuf` | core/src/syscall/unix/mod.rs:447-512 | the result is the number of delivered bytes, they are at the front of the buffer and the rest is untouched; when it is -1, as an if-and-only-if; no call is made while the descriptor blocks, and its blocking flag is restored |
| `NioLoops.Socket.WriteLoop` | core/src/syscall/unix/mod.rs:696-732 | the same for the write loop, for an empty buffer, a failed wait and otherwise |
| `NioLoops.Socket.WriteBuf` | core/src/syscall/unix/mod.rs:672-737 | the result is how much of the front of the buffer the kernel accepted, in at most one call; when it is -1, as an if-and-only-if; the blocking flag is restored |

## Left out

- Interleavings inside one queue call: a call of a handle is taken as a whole and each local queue has one handle; the counters are load-then-store, so finer interleavings lose counts.
- Counters at the machine maximum: lengths are unbounded here, so `saturating_add` at `usize::MAX` is not modelled.
- `steal` retries of the injector and the worker: they are taken to succeed when there is an item.
- Several schedulers that steal coroutines from each other, and several pools: the scheduler takes any of its ready coroutines, and a pool is alone.
- The order in which the scheduler's ready queue gives out coroutines: any ready coroutine may be next.
- Coroutine bodies that yield in other states than running or waiting in a system call: the runtime's guards exist to exclude them, and `CoroutineBodies.LegalBody` assumes it; hooked calls are proved to keep it.
- Ids are unique and the clock does not go back; nothing else is assumed of either.
- `CoPool.CoroutinePool.Stop`: does not model the results that `do_clean` writes for tasks somebody still waits for, because they belong to a pool that has stopped, and takes the time limit as the number of rounds.
- Several pollers: the selector's records are static and shared by all pollers of the program, and here there is one. With several, a direction recorded through one is not registered with another.
- `NioLoops.Socket.ReadBuf`: does not model other code using the same descriptor during a wait, and takes the time limit of the descriptor as fixed.
- Waiting for a task result with a condition variable: its timing depends on lock internals.
- The vectored and message variants of the read and write loops, `accept`, `connect`, `poll` and the `select` hook: only the single-buffer loops are modelled.
- Dispatch from a token to a coroutine in the pollers: only the interest records are modelled.
- io_uring and IOCP operators.
- Signals, preemption, trap handlers, stack growth and `BeanFactory`: memory and assembly concerns.
- The monitor's own loop and its signalling: only the set it works on is modelled.
- The hook crate, macros, configuration, build scripts and Windows copies: plumbing around the modelled parts.
