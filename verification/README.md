# justRT kernel model

A verified model of the justRT kernel for Cortex-M: the task table with priority inheritance, recursive mutexes,
binary semaphores, bounded queues, event groups, notifications and software timers, the tick and the context
switch, together with the configuration check, the memory-protection encodings, the fixed-block pools and the exact
arithmetic of the port.

## How it is built

Every shared structure of the kernel changes only inside critical sections. `Machine` therefore describes the kernel
as a state machine with one step per critical section, executed by the running task, by an interrupt handler, by
the tick or by the context switch; a run is any interleaving of legal steps. A blocking call is two steps: the one
that blocks, and `ContinueStep` after the context switch back. Objects live in static pools and a pointer is an
index, null is -1 (`NullObject` for a wait object). Words are 32 bits wide and every wrap-around is written out;
`State.ticks` is the true number of ticks and the kernel's counter is its low word.

`Kernel.Kernel` is the imperative form: the source's arrays of records and global variables, updated in place with
the source's loops. Every critical section is a method proved to be exactly its step of the machine, so it keeps the
invariant `Runs.Inv` and everything proved of runs; the table below lists only those with a loop or a second pass,
and the helpers they share.

| module | contents |
|---|---|
| Arith, Bits | products, quotients; 32-bit words as sets of bits |
| Graph, Inheritance | functional graphs; priority inheritance as a fixpoint on the wait-for graph |
| IntrusiveList | the two object lists; the tortoise-and-hare cycle check |
| Types, TaskTable, Machine | data, task-table transitions, steps |
| WaitInvariant, Phases, MutexInvariant, QueueInvariant, WakeupInvariant, TimerInvariant, TimeInvariant, Checker, Scheduler | what every step keeps, one concern each |
| Runs, MutexRuns, QueueRuns, SignalRuns, TimeRuns, TimerRuns | theorems about whole runs |
| Findings | runs on which a documented promise fails |
| Calls, EventBits, MutexCalls, QueueCalls, SignalCalls, TaskCalls, TimerCalls | what each step promises its caller: outcome, effect and frame, in terms of ownership, contents, single bits, list order and elapsed time |
| KernelFacts, Kernel | the kernel as a class over arrays |
| Configuration, Mpu, MemoryPool, Arithmetic | initialization, protection regions, pools, exact arithmetic |

## What the proofs found

- `JRT_MutexLock` raises the owner (kernel/sync.c:219) before it looks at its own deadline (kernel/task.c:970-976). A
  call whose deadline has already passed returns without waiting and leaves the boost behind, so the promise of
  priority inheritance with chain restoration (docs/RTOS.md:295) fails on that branch. `Findings.BoostOutlivesTheCall`
  is a run from initialization that does it. `MutexInvariant.LockExactIff` says exactly when a lock call is harmless, and
  the bounds in `Runs.BoundsOnRuns` hold on every run all the same.
- The signed comparison in `kernel_timer_tick` measures at most 2^31 + 1 ticks ahead. A periodic timer is counted right
  exactly for periods 1 to 2^31 + 1 (`TimerInvariant.PeriodicCountExactIff`); a longer period or delay, which the API
  accepts, expires on the first tick (`TimerInvariant.FiresAtOnce`).
- docs/RTOS.md:306-307 says that task waits take their deadline when the API is entered. Event-group and notification
  waits take it when they block (kernel/task.c:760, kernel/task.c:841); the model follows the code. The promise is
  kept exactly when no tick, modulo 2^32, lies between entry and critical section (`TimeRuns.EntryDeadlineIff`), and
  `Findings.DeadlineIsLate` is a run from initialization on which a wait is one tick too long.
- `configure_region_range` ends exactly on ranges that some aligned block covers without reaching the end of the
  32-bit address space: on those it computes the smallest block (`Mpu.ConfigureRegionRange`), and on every other
  range the guard of its second loop holds after any number of rounds, so the loop is never left
  (`Mpu.NeverLeaves`). `Mpu.TopOfMemory` is such a range; every range in the lower half is representable.
- A pool whose storage ends with the address space can allocate but never free: the end address in kernel/mempool.c:78
  wraps to 0, so every block counts as outside (`MemoryPool.Pool.Free`).

## Assumptions

Objects are created before the kernel starts (docs/RTOS.md:323), a queue's capacity times item size fits 32 bits and
its storage has that size, and a mutex is not locked recursively 2^32 times. Callbacks and task bodies are arbitrary
sequences of the calls their context allows. The size of the task table and the priorities are parameters.

## Model

| member | source | states |
|---|---|---|
| `Inheritance.EffectiveIffSupported` | kernel/task.c:354-382 | in a state where nobody runs below a waiter, the recomputed priority is never higher, and is equal exactly when the task is supported by its base or by a direct waiter |
| `Inheritance.RaiseKeepsUpper` | kernel/task.c:299-339 | raising the owner chain keeps all lower bounds, even round a deadlock cycle; the depth bound never cuts the chain short |
| `Inheritance.BlockKeepsExact` | kernel/sync.c:219-221 | raise and wait: the inheritance equation survives lock contention on any wait-for graph |
| `Inheritance.BoostAloneExactIff` | kernel/sync.c:219-221 | a raise without a wait keeps the equation if and only if the owner was high enough or is deadlocked |
| `Inheritance.RestoreKeepsExact` | kernel/task.c:341-401 | the restore walk, with its early exit and its depth bound, stops only when nobody is left unsupported |
| `Inheritance.TimeoutKeepsExact` | kernel/task.c:1080-1116 | a waiter leaves and the chain is restored: the equation holds again |
| `Inheritance.HandoverKeepsExact` | kernel/sync.c:247-265 | handing the mutex to a waiter and recomputing both tasks restores the equation |
| `Inheritance.TransitiveLowerBound` | kernel/task.c:306-336 | on any graph a task runs at least at the base of every direct or transitive waiter |
| `Inheritance.ExactIffTransitiveMax` | kernel/task.c:299-433 | without a deadlock the equation holds if and only if every priority is the maximum base over the transitive waiters |
| `IntrusiveList.FindCycle` | kernel/sync.c:140-155 | the tortoise-and-hare loop terminates on every list and reports a cycle exactly when the list never ends; what it reports lies on the cycle |
| `IntrusiveList.LinkKeepsList` | kernel/timer.c:11-34 | linking keeps the list finite and free of duplicates, puts a new object in front and changes nothing for a linked one |
| `IntrusiveList.EndingDistinct` | kernel/sync.c:21-35 | a list that ends visits no object twice |
| `TaskTable.BestWaiterIsBest` | kernel/task.c:925-954 | the woken task is the lowest-index waiter of highest priority |
| `Scheduler.SelectElects` | kernel/task.c:1144-1166 | the two passes pick a READY task of maximal priority, the first of those in cyclic order |
| `Scheduler.ElectedUnique` | kernel/task.c:1144-1166 | that task is unique |
| `Scheduler.PassedOverComesCloser` | kernel/task.c:1155-1166 | a top-priority task that is passed over is strictly closer in cyclic order afterwards |
| `Machine.StepFrame` | kernel/sync.c:52-438 | each class of objects is changed by its own steps alone |
| `WaitInvariant.StepSane` | kernel/task.c:1001-1041 | every step keeps the task table coherent: wait metadata exactly on blocked tasks and matching their call, one running task, idle always runnable |
| `WaitInvariant.TickTasksAt` | kernel/task.c:1063-1117 | the tick treats each task by itself, apart from inherited priorities |
| `Phases.StepKeeps` | kernel/task.c:482-521 | a step moves only tasks engaged in its own protocol, touches dormant tasks only to resume them, and changes priorities only for mutexes |
| `MutexInvariant.StepKeepsLocks` | kernel/sync.c:184-268 | every step keeps ownership consistent, priorities above waiters and bases, and mutex-less tasks at base |
| `MutexInvariant.LockExactIff` | kernel/sync.c:184-222 | a lock keeps the inheritance equation if and only if it does not boost in vain a lower owner that is not deadlocked |
| `MutexInvariant.UnlockKeepsLocks` | kernel/sync.c:224-268 | unlock, inner or last, with or without a waiter, keeps the lock invariant and the equation |
| `MutexInvariant.TickKeepsLocks` | kernel/task.c:1056-1123 | so does a tick with any number of simultaneous mutex timeouts |
| `MutexInvariant.StepKeepsExact` | kernel/task.c:299-433 | so does every step that leaves no boost behind |
| `QueueInvariant.PutAppends` | kernel/sync.c:306-317 | writing the slot at head and advancing head appends to the sequence in the ring and leaves every live slot alone |
| `QueueInvariant.DropRemovesOldest` | kernel/sync.c:361-373 | advancing tail removes exactly the front of the sequence |
| `QueueInvariant.DeliverBalances` | kernel/sync.c:300-322 | a delivery keeps reservations equal to granted calls and wakes a receiver if one waits |
| `QueueInvariant.ExtractBalances` | kernel/sync.c:356-378 | so does an extraction, for senders |
| `QueueInvariant.GrantedCallFinishes` | kernel/sync.c:294-338 | a woken sender or receiver finishes in its second pass; a timed-out one reports failure |
| `QueueInvariant.StepKeepsQueues` | kernel/sync.c:285-438 | every step keeps the balance of every queue, and loses, duplicates or reorders no item that a call reports as stored (which calls those are: `QueueCalls`) |
| `WakeupInvariant.StepKeepsWaiters` | kernel/sync.c:60-120 | every step keeps: no waiter on an available semaphore, no satisfied event waiter, no notified notification waiter |
| `TimerInvariant.StepKeepsTimers` | kernel/timer.c:36-252 | every step keeps the timer list finite, timer records well formed, and the timer service awake while there is callback work |
| `TimerInvariant.PeriodicAfter` | kernel/timer.c:203-229 | a periodic timer after any number of undisturbed ticks: floor(n/P) more expirations and the next deadline, across wrap-around |
| `TimerInvariant.PeriodicCountExactIff` | kernel/timer.c:104-121 | the count is right for every n if and only if the period is at most 2^31 + 1 |
| `TimerInvariant.OneShotAfter` | kernel/timer.c:85-102 | a one-shot timer expires once, at its expiry tick, and is inactive from then on |
| `TimeInvariant.StepKeepsDeadlines` | kernel/task.c:968-982 | between ticks no blocked task is past its deadline |
| `TimeInvariant.TimedOutIffElapsed` | kernel/task.c:1074-1078 | the wrapped comparison holds exactly when the true elapsed time reaches the timeout |
| `TimeInvariant.ExpiredIffElapsed` | kernel/task.c:956-982 | a call entered at any tick finds its deadline passed exactly when the ticks since entry, modulo 2^32, reach a finite timeout |
| `Checker.CheckIffClean` | kernel/task.c:1001-1054 | the runtime checker is silent exactly in states with wait metadata on exactly the blocked tasks, finite lists, owners and depths on exactly the locked linked mutexes and periods on exactly the periodic linked timers |
| `Checker.StepKeepsList` | kernel/sync.c:124-138 | every step keeps the mutex list finite and unlocked linked mutexes ownerless |
| `Runs.BootInv` | kernel/task.c:1344-1384 | the state after initialization meets the invariant and the inheritance equation |
| `Runs.StepKeepsInv` | kernel/task.c:1001-1054 | every legal step keeps the whole invariant |
| `Runs.RunKeepsInv` | kernel/task.c:1001-1054 | so does every run |
| `Runs.CheckerNeverFires` | kernel/task.c:989-1054 | in every reachable state the kernel's own checker reports nothing |
| `Runs.InheritanceOnRuns` | kernel/task.c:299-433 | after any run of clean steps priorities solve the inheritance equation, and without a deadlock are the maxima over transitive waiters |
| `Runs.BoundsOnRuns` | kernel/task.c:403-433 | on every run nobody runs below a transitive waiter, and no boost outlives the last mutex held |
| `Runs.NobodySleepsOnWork` | kernel/timer.c:63-83 | on every run no semaphore, event, notification or timer-service waiter sleeps on available work |
| `Runs.SwitchIsOptimal` | kernel/task.c:1139-1185 | after a context switch exactly one task is RUNNING, no READY task outranks it, and every other entry is as before but for the preempted task, now READY |
| `Runs.NoInversion` | kernel/task.c:1144-1185 | if a blocked task's owner chain ends in a task that can run, the running task has at least the blocked task's priority |
| `Runs.PassedOverBriefly` | kernel/task.c:1155-1166 | a task that stays READY at the top priority is selected within as many switches as there are tasks, whatever else happens between them |
| `Findings.BoostOutlivesTheCall` | kernel/sync.c:219-221 | a run from initialization whose last lock call fails on its deadline, after which the owner runs above its base although nobody waits for anybody |
| `Findings.DeadlineIsLate` | kernel/task.c:817-843 | a run from initialization on which a wait entered at tick 0 with a timeout of 5 gets the deadline 6 |
| `MutexRuns.LockPhaseSteps` | kernel/sync.c:184-268 | every mutex wait ends in exactly one of handoff, by an unlock of that mutex, or timeout, by a tick |
| `MutexRuns.LockReturns` | kernel/sync.c:184-222 | a lock call waits exactly if another task holds the mutex and time is left; if it returns at once it returns 1 exactly when the caller owns the mutex |
| `MutexRuns.ContinueReturns` | kernel/task.c:968-982 | a lock call that waited returns 1 exactly when the caller owns the mutex, then with depth 1 |
| `MutexRuns.UnlockedHasNoWaiter` | kernel/sync.c:247-260 | a task blocked on a mutex waits for another task's lock; an unlocked mutex has no waiter |
| `MutexRuns.HandoffToBest` | kernel/sync.c:246-260 | the last unlock hands over to the lowest-index waiter of highest effective priority, and unlocks exactly when nobody waits |
| `MutexRuns.RunHeld` | kernel/sync.c:196-209 | over any run recursion depth equals reported locks minus reported unlocks |
| `MutexRuns.LocksNeedUnlocks` | kernel/sync.c:224-245 | from initialization on, n reported locks need n reported unlocks |
| `QueueRuns.RunFifo` | kernel/sync.c:285-438 | over any run: contents before plus accepted equals received plus contents after (what is accepted and received: `AcceptedExactly`, `ReceivedExactly`) |
| `QueueRuns.ReceivedIsPrefix` | kernel/sync.c:341-394 | from an empty queue, the received history is a prefix of the accepted one and the rest is in the queue |
| `QueueRuns.ReservationsOnRuns` | kernel/sync.c:296-338 | on every run reservations count the granted calls, fit, and nobody sleeps on unclaimed room or items |
| `QueueRuns.GrantedCallsFinishOnRuns` | kernel/sync.c:331-337 | on every run a granted call succeeds on its second pass, so the loop makes at most two |
| `SignalRuns.TokensAddUp` | kernel/sync.c:60-120 | over any run semaphore tokens given equal those taken, held and on their way to woken takers |
| `SignalRuns.GroupStep` | kernel/task.c:672-773 | each single bit: on after a step if and only if it was on or the step sets it, and no satisfied clearing wait takes it away |
| `SignalRuns.WaitReturns` | kernel/task.c:732-758 | an unblocked wait returns the requested part of the group, satisfying the condition exactly when the group does |
| `SignalRuns.ResumedWaitReturns` | kernel/task.c:764-772 | a woken waiter returns what it finds when it resumes |
| `TimeRuns.BlocksWithEntry` | kernel/task.c:956-982 | a call that blocks carries the deadline of its API entry, with less than the timeout elapsed |
| `TimeRuns.EntryDeadlineIff` | kernel/task.c:760-762 | an event or notification wait carries the deadline of its API entry if and only if no tick, modulo 2^32, came between entry and critical section |
| `TimeRuns.WaitLasts` | kernel/task.c:1074-1078 | an unsignalled wait lasts until the timeout is reached |
| `TimeRuns.TimeoutIsExact` | kernel/task.c:1074-1094 | and ends with failure on exactly that tick, for every start tick and finite timeout |
| `TimeRuns.TimedCallFails` | kernel/sync.c:184-394 | a whole timed lock, take, send or receive call that nothing signals: it blocks until exactly the tick that reaches the timeout counted from API entry, and when it returns, after any further run, it reports failure |
| `TimeRuns.DelayIsExact` | kernel/task.c:854-865 | a task delayed n > 0 ticks becomes READY on exactly the n-th tick |
| `TimeRuns.SuspensionLasts` | docs/RTOS.md:97-99 | no tick and no signal ends a suspension |
| `TimeRuns.SuspendThenResume` | kernel/task.c:191-264 | suspending a READY task or the RUNNING caller succeeds, and resuming restores the state, except that the caller comes back READY |
| `TimeRuns.NotificationsAddUp` | kernel/task.c:775-852 | notified totals equal taken plus pending, modulo 2^32 |
| `TimerRuns.ExpirationsAddUp` | kernel/timer.c:153-252 | expirations recorded equal those claimed with the timer's own callback and argument, taken, dispatched or pending, modulo 2^32 |
| `TimerRuns.PeriodicCounts` | kernel/timer.c:104-121 | an undisturbed periodic timer records floor(n/P) expirations in n ticks of any run, whoever consumes them |
| `TimerRuns.OneShotCounts` | kernel/timer.c:85-102 | an undisturbed one-shot timer records exactly one expiration, at its expiry tick, and is then inactive |
| `TimerRuns.RestartRearms` | kernel/timer.c:123-140 | from the invariant alone: a restart gives the schedule of a fresh start with the delay or period last set |
| `TimerRuns.RestartCounts` | kernel/timer.c:123-140 | after a restart an undisturbed timer records what it would after that start: one expiration at its expiry tick, or floor(n/P) in n ticks |
| `TimerRuns.StoppedStaysQuiet` | kernel/timer.c:142-151 | a stopped timer records nothing until it is started again |
| `MutexCalls.LockFree` | kernel/sync.c:196-203 | a mutex that nobody holds is locked at once, once, for the caller; nothing else changes |
| `MutexCalls.LockAgain` | kernel/sync.c:204-209 | the owner gains one level; nothing else changes |
| `MutexCalls.LockContended` | kernel/sync.c:211-221 | if another task holds the mutex the call waits, blocked on it from its API entry on, if and only if the timeout is not 0 and is infinite or not yet reached by the ticks since entry; otherwise it returns 0. Without a timeout nothing changes; with one exactly the owner chain is raised to the caller |
| `MutexCalls.UnlockRefused` | kernel/sync.c:236-240 | an unlock by anybody but the owner returns 0 and changes nothing |
| `MutexCalls.UnlockInner` | kernel/sync.c:241-246 | an inner unlock returns 1, takes one level off and changes nothing else |
| `MutexCalls.UnlockLast` | kernel/sync.c:247-267 | the last unlock returns 1, hands the mutex to the best waiter, who alone is woken, or frees it if nobody waits; caller and heir keep no priority that their base and their waiters do not call for |
| `MutexCalls.CreateMakesFree` | kernel/sync.c:124-138 | a created mutex is free and in the list; nothing else changes |
| `MutexCalls.LockReturnsResult` | kernel/task.c:979-981 | a lock call that waited returns what its wait ended with |
| `QueueCalls.SendOutcome` | kernel/sync.c:294-338 | a send stores its item at the end and returns 1 if and only if items and granted sends leave room; otherwise it waits exactly while time is left, and else returns 0 without a trace; the best receiver is woken by a stored item |
| `QueueCalls.ReceiveOutcome` | kernel/sync.c:350-393 | a receive takes the oldest item if and only if there is one that no granted receive claims; otherwise it waits exactly while time is left, and else fails without a trace; the best sender is woken |
| `QueueCalls.SendFromIsrOutcome` | kernel/sync.c:404-437 | an interrupt send stores its item and returns 1 if and only if there is unclaimed room, and else changes nothing |
| `QueueCalls.SendReturn` | kernel/sync.c:331-337 | a send that waited stores its item exactly if its wait was granted |
| `QueueCalls.ReceiveReturn` | kernel/sync.c:386-392 | a receive that waited takes the oldest item exactly if its wait was granted |
| `QueueCalls.CreateMakesEmpty` | kernel/sync.c:270-283 | a created queue is empty and of the given size |
| `QueueRuns.AcceptedExactly` | kernel/sync.c:294-338 | the items a step adds to a queue's history are exactly those of sends that find unclaimed room or whose wait was granted |
| `QueueRuns.ReceivedExactly` | kernel/sync.c:350-393 | a step takes an item, the oldest, exactly for a receive that finds an unclaimed one or whose wait was granted |
| `SignalCalls.TakeOutcome` | kernel/sync.c:60-87 | a take of an available semaphore empties it and returns 1; otherwise it waits exactly while time is left, and else returns 0 without a trace |
| `SignalCalls.GiveOutcome` | kernel/sync.c:89-122 | a give wakes the best taker, and makes the semaphore available exactly if nobody waits |
| `SignalCalls.CreateSemaphoreOutcome` | kernel/sync.c:52-58 | a created semaphore is as available as asked |
| `SignalCalls.TakeReturn` | kernel/task.c:979-981 | a take that waited returns what its wait ended with |
| `EventBits.ConditionIffMeets` | kernel/task.c:658-662 | the mask test holds exactly if every requested bit, or some requested bit, is on |
| `SignalCalls.SetBitsOutcome` | kernel/task.c:672-701 | a set turns on exactly the bits named and returns the new value; exactly the waiters of the group whose request the new value meets, bit by bit, are woken, with success |
| `SignalCalls.WaitBitsOutcome` | kernel/task.c:732-763 | a wait that is met returns the bits it asked for at once and takes them away if told to; otherwise it waits exactly if it has a timeout, and else returns 0 without a trace |
| `SignalCalls.WaitBitsReturn` | kernel/task.c:764-773 | a wait that blocked returns what it then finds of its bits, and takes them away exactly if they then meet the request and it clears |
| `SignalCalls.CreateGroupOutcome` | kernel/task.c:664-670 | a created group has no bit on |
| `SignalCalls.NotifyOutcome` | kernel/task.c:775-805 | a notification is added to the task's value, and wakes it exactly if it waits for one; an unknown task is refused |
| `SignalCalls.TakeNotificationOutcome` | kernel/task.c:817-843 | a take hands out the whole value; without one it waits exactly if it has a timeout, and else returns 0 without a trace |
| `SignalCalls.NotifyReturn` | kernel/task.c:844-852 | a take that waited hands out what has arrived, and fails exactly if that is nothing |
| `TaskCalls.SwitchOutcome` | kernel/task.c:1139-1185 | the processor goes to the nearest task in cyclic order among those of the highest priority; the preempted task becomes READY and keeps everything else; no other entry changes |
| `TaskCalls.TickOutcome` | kernel/task.c:1056-1123 | a tick counts down sleepers, wakes those whose delay ends, wakes with failure exactly the waiters whose time is up, and the timer service exactly if a timer with a callback expires; no other entry changes but for inherited priorities |
| `TaskCalls.DelayOutcome` | kernel/task.c:854-865 | a delay puts the caller alone to sleep for the given ticks, or makes it READY for 0 |
| `TaskCalls.SuspendOutcome` | kernel/task.c:191-229 | exactly READY and RUNNING application tasks are suspended; every refusal changes nothing |
| `TaskCalls.ResumeOutcome` | kernel/task.c:231-264 | exactly suspended application tasks become READY; every refusal changes nothing |
| `TaskCalls.StartOutcome` | kernel/task.c:1387-1397 | starting changes nothing but that the kernel runs |
| `TimerCalls.ServiceClaimOutcome` | kernel/timer.c:231-252 | the service gets callback and argument of the first timer in list order that has a callback and an expiration, and only that timer loses one; without such a timer it blocks for ever |
| `TimerCalls.SettingsOnRuns` | kernel/timer.c:36-140 | over any run a timer's callback and argument are those last set since its creation, and its interval that of its last start |
| `TimerCalls.CreateTimerOutcome` | kernel/timer.c:36-61 | a created timer is idle and linked once; nothing else changes |
| `TimerCalls.StartTimerOutcome` | kernel/timer.c:85-102 | a started timer is due the delay after the present tick and keeps what is pending |
| `TimerCalls.StartPeriodicOutcome` | kernel/timer.c:104-121 | so is a periodic one; a period of 0 changes nothing |
| `TimerCalls.RestartOutcome` | kernel/timer.c:123-140 | a restart repeats the interval last set; an interval of 0 changes nothing |
| `TimerCalls.StopOutcome` | kernel/timer.c:142-151 | a stopped timer keeps everything but its activity |
| `TimerCalls.TakeExpirationsOutcome` | kernel/timer.c:153-168 | everything pending is handed out |
| `TimerCalls.DispatchOutcome` | kernel/timer.c:170-201 | everything pending is dispatched if there is a callback, and else stays pending |
| `TimerCalls.SetCallbackOutcome` | kernel/timer.c:63-83 | callback and argument are set, and the service is woken exactly if it sleeps and the timer now has work |
| `TimerCalls.TickTimersOutcome` | kernel/timer.c:203-229 | a tick expires exactly the linked, active timers whose deadline is reached, once each |
| `Checker.CheckReports` | kernel/task.c:1001-1054 | which violation is reported: the first unclean task's, else the mutex list's or its first unclean mutex's, else the timer list's |
| `Configuration.FaultReported` | kernel/task.c:1306-1349 | which fault is reported: table and size, then the first bad task's entry before priority before stack, then private regions |
| `Configuration.BootIsInitial` | kernel/task.c:1344-1384 | the booted kernel has the table's tasks in order at their own priorities, the first RUNNING, then the blocked service and idle, and no object in use |
| `Kernel.Kernel.constructor` | kernel/task.c:1344-1384 | builds the state after initialization |
| `Kernel.Kernel.TaskInheritPriority` | kernel/task.c:299-339 | the chain loop computes the raise along the owner chain |
| `Kernel.Kernel.EffectivePriority` | kernel/task.c:357-382 | the scan computes the maximum of base and waiters |
| `Kernel.Kernel.RestorePriorityChain` | kernel/task.c:342-401 | the nested loops compute the restore walk |
| `Kernel.Kernel.SelectWaiter` | kernel/task.c:932-945 | the scan finds the waiter to wake |
| `Kernel.Kernel.TickOneTask` | kernel/task.c:1063-1117 | one task of the tick loop, including the timeout of a mutex waiter |
| `Kernel.Kernel.TickAllTasks` | kernel/task.c:1063-1117 | the whole pass over the task table |
| `Kernel.Kernel.KernelTimerTick` | kernel/timer.c:203-229 | the list walk handles every linked timer once |
| `Kernel.Kernel.MutexIsLinked` | kernel/sync.c:21-35 | the walk decides membership |
| `Kernel.Kernel.TimerIsLinked` | kernel/timer.c:11-25 | the walk decides membership |
| `Kernel.Kernel.FindClaim` | kernel/timer.c:236-246 | the walk finds the first timer with callback work |
| `Kernel.Kernel.CheckTasks` | kernel/task.c:1007-1041 | the loop reports the first task violation |
| `Kernel.Kernel.CheckSync` | kernel/sync.c:140-182 | cycle check and walk report the first mutex violation |
| `Kernel.Kernel.CheckTimers` | kernel/timer.c:254-281 | cycle check and walk report the first timer violation |
| `Kernel.Kernel.CheckInvariants` | kernel/task.c:1001-1054 | on any memory the checker reports what the conditions say |
| `Kernel.Kernel.TickHandler` | kernel/task.c:1056-1123 | is the tick step, and the checker at its end never fires |
| `Kernel.Kernel.BestReadyPriority` | kernel/task.c:1144-1153 | the first pass |
| `Kernel.Kernel.NextReady` | kernel/task.c:1155-1166 | the second pass |
| `Kernel.Kernel.PendsvSwitch` | kernel/task.c:1125-1192 | preemption and the two passes are the switch step, of which `TaskCalls.SwitchOutcome` says what it does; keeps the invariant of every run |
| `Kernel.Kernel.TaskBlockUntil` | kernel/task.c:968-982 | blocks only while the deadline is ahead, and fails exactly when the ticks since API entry have reached a finite timeout |
| `Kernel.Kernel.MutexLock` | kernel/sync.c:184-222 | in place and in the order of the source, boost before deadline, the lock step, of which `MutexCalls` says what it does; keeps the invariant of every run |
| `Kernel.Kernel.MutexUnlock` | kernel/sync.c:224-268 | wakes, hands over and recomputes in place: the unlock step; keeps the invariant of every run |
| `Kernel.Kernel.CopyIn` | kernel/sync.c:301-308 | the byte loop writes the slot at head and nothing else |
| `Kernel.Kernel.CopyOut` | kernel/sync.c:356-364 | the byte loop reads the slot at tail |
| `Kernel.Kernel.QueueSendReturn` | kernel/sync.c:331-337 | is the second round of the send loop; it succeeds exactly when the wait was granted |
| `Kernel.Kernel.QueueReceiveReturn` | kernel/sync.c:386-392 | is the second round of the receive loop; it yields an item exactly when the wait was granted |
| `Kernel.Kernel.WakeSatisfied` | kernel/task.c:687-697 | wakes exactly the satisfied waiters |
| `Kernel.Kernel.TimerLink` | kernel/timer.c:27-34 | links an unlinked timer in front |
| `Configuration.AcceptedIff` | kernel/task.c:1306-1342 | a configuration is accepted if and only if its size, entries and priorities are legal and all memory is well laid out |
| `Configuration.OverlapIff` | kernel/task.c:1236-1239 | the comparison of two non-empty ranges is true exactly when they share an address |
| `Configuration.ValidateTaskStack` | kernel/task.c:1194-1234 | accepts exactly a large enough, aligned stack behind its guard, inside the address space and disjoint from all earlier ones |
| `Configuration.ValidatePrivateRegion` | kernel/task.c:1241-1304 | accepts exactly no region, or an aligned power of two in the private area disjoint from all stacks and earlier regions |
| `Configuration.AcceptedRegionsEncodable` | arch/cortex_m/port_cm7.c:251-264 | every accepted private region is a block the protection unit can hold exactly |
| `Configuration.Startup.KernelInit` | kernel/task.c:1306-1385 | reports the first fault in order; a rejection changes nothing, an acceptance gives the kernel that the table asks for |
| `Mpu.ConfigureRegionRange` | arch/cortex_m/port_cm7.c:160-189 | on every representable range: the smallest aligned power-of-two block of at least 32 bytes that covers it |
| `Mpu.NeverLeaves` | arch/cortex_m/port_cm7.c:174-184 | on every other range the guard of the second loop holds after any number of rounds, also once the size has wrapped to 0 |
| `Mpu.TopOfMemory` | arch/cortex_m/port_cm7.c:174-184 | a range on which the loops do not end: the last bytes of the address space |
| `Mpu.LowerHalfRepresentable` | arch/cortex_m/port_cm7.c:174-184 | every range in the lower half of the address space is representable |
| `Mpu.PrivateRegion` | arch/cortex_m/port_cm7.c:235-271 | the least SIZE that holds the region, exact for accepted regions |
| `Bits.PowerOfTwoTest` | kernel/task.c:1253 | the bit trick accepts exactly powers of two |
| `Bits.LowMask` | kernel/task.c:1254 | masking with size - 1 is the remainder |
| `Bits.HighMask` | arch/cortex_m/port_cm7.c:178-184 | masking with the complement rounds down |
| `MemoryPool.Pool.Create` | kernel/mempool.c:10-30 | unacceptable arguments change nothing; acceptable ones give a pool without live blocks, whatever the bitmap held |
| `MemoryPool.Pool.FirstFree` | kernel/mempool.c:42-55 | the scan finds the lowest unmarked block |
| `MemoryPool.Pool.BlockAt` | kernel/mempool.c:75-88 | the address arithmetic finds the one block that starts at an address, if any; none when the end address wraps to 0 |
| `MemoryPool.Pool.Allocate` | kernel/mempool.c:32-57 | returns the lowest free block and marks it, or null exactly when all blocks are live |
| `MemoryPool.Pool.Free` | kernel/mempool.c:59-101 | succeeds exactly on the start address of a live block, unless the storage ends with the address space, and frees that block only |
| `MemoryPool.Pool.BlocksDisjoint` | kernel/mempool.c:51 | different blocks share no byte and lie inside the storage |
| `MemoryPool.AllocateThenFree` | kernel/mempool.c:32-101 | freeing what was just allocated restores the bitmap word for word, unless the storage ends with the address space |
| `Arithmetic.MillisecondsToTicks` | arch/cortex_m/port_cm7.c:452-473 | the ceiling of ms * rate / 1000, saturated at 2^32 - 1, with no intermediate overflow |
| `Arithmetic.DivideU64U32` | kernel/benchmark.c:15-31 | the true quotient for every numerator and nonzero denominator; all ones for denominator 0; the remainder register fits 64 bits |
| `Arithmetic.PeriodToCycles` | kernel/benchmark.c:33-40 | the exact cycle count, or 0 when it does not fit |

## Left out

- Startup code, vector table, linker scripts, board drivers, fault capture and halting: hardware access without an algorithm.
- The SVC and PendSV assembly, register and FPU context and initial stack words: a context switch is a change of the current task.
- Register writes of the memory protection unit and privilege enforcement: only bases, sizes and encodings are modelled.
- PRIMASK nesting and ISR detection: critical sections are atomic steps and interrupt callers are steps of their own; calls from a forbidden context, which the source rejects and counts, are not steps.
- Null-pointer arguments, except in `JRT_KernelInit` and the memory pools.
- Stack fill and high-water marks, timeout, misuse and scan counters, and benchmark records other than the division.
- Getters, `JRT_KernelTickReached` and `JRT_TaskDelayUntil`.
- Callback and task bodies: any sequence of the calls their context allows.
- Checker.CheckIffClean: state and wait-kind words outside their enumerations, which the source tests too, cannot be written in the datatypes.
- Kernel.Kernel.CheckTasks: likewise says nothing about state and wait-kind words outside their enumerations.
- Kernel.Kernel.TimerDispatch: the claim is modelled, the following loop of callback invocations is a number.
- Mpu.PrivateRegion: sizes above 2^31 are excluded, on which the loop of the source does not end; no accepted configuration has one.
- Bits.PowerOfTwoTest: the bit operators are modelled on natural numbers below 2^32, bit by bit.
- QueueInvariant.GrantedCallFinishes: says that a granted call that resumes finishes; that a task resumes at all depends on the other tasks' priorities.
- Runs.PassedOverBriefly: counts context switches, not time.
