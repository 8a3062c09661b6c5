# A model of the kernel's cores, lists and memory

C Kernel is a multi-core, multi-threaded kernel for ARM processors. This project models its hardest parts
in Dafny and proves what they promise, one module to a source file or mechanism:

- `DoublyLinkedList`: circular doubly linked lists, on the heap; every operation is proved to do its
  sequence operation on rings of any length.
- `MpsafeList`: the lists that cores share, protected by the head word itself (0, a pointer, or 1 while a core
  works on the list), for any update. A state machine whose steps are the single reads, compare-and-swaps and
  program lines of any number of cores. `ListMachine` says what a program is; `ListUpdates` has the programs of
  the code, and proves that each does to a ring what it should do to a list.
- `CoreLock`: the lock a core may claim again while it has it.
- `SleepQueue`, `SleepLists`: the delta-encoded sleep queue, against a map of remaining times, and in place.
- `Scheduler`, `SchedulerRuns`, `SchedulerFrames`: the whole scheduler as a machine of N cores. Each SVC, the
  tick and the interrupt is one step; a run is any interleaving of the steps of the cores. `Whereabouts`,
  `SchedulerOrder`, `QueueRuns`, `InterruptRuns`, `MovingRuns`, `Sleepers`: what becomes, over whole runs, of runnable tasks, calls
  and handlers, interrupted rings, tasks on the move and sleeping ones.
- `OSTasks`, `Controllers`: the same surgery on rings and arrays, in place, as the C code does it.
- `RunningFlags`: the flag that each task has set while a core runs it, beside the scheduler's state, with the
  assertions about it.
- `Queues`, `Locks`, `Pipes`: what the steps on queues, locks and pipes do. `LockRuns`: one lock in the whole system.
- `OSPipes`: the pipe in place, with 32-bit indices that wrap, and memory that is mapped twice;
  `PipeStreams`: what goes through it, over whole runs; `PipeIndices`: where a wrapped index leads.
- `RawMemory`, `Bits`: the allocator of physical memory, with its bitmap and its table of pieces.
- `Mmu`: two-level translation tables of several cores, against a flat map of pages. `Descriptors`: the words in
  them, as the processor reads them.
- `RectCopy`: copying a rectangle of the screen that may overlap its copy.
- `Tasks`: tasks, their handles, and counting.

A PANIC, a failed assertion or a fault ends a run; where a property says that one cannot be met, that is proved.
Memory is sequentially consistent. `dafny verify dfyconfig.toml` checks everything.

## How the parts fit

The heap methods take the heads of the lists involved, return the new heads, and have ghost sequences for the
contents; their contracts speak of those. The functions of `Scheduler` work on the same sequences, and lemmas
such as `OSTasks.IdleYieldAgrees`, `OSTasks.InterruptAgrees` and `OSTasks.ReleaseAgrees` connect the two.
`MpsafeList` shows why a shared list may be treated as one atomic sequence: for every update that is right for a
list of which nobody else knows, and `ListUpdates` shows that of each update there is; by `SharedLists`
the steps of the scheduler do to its shared lists what those updates mean. `CoreLock` shows why what
is done under a core lock is one step. `OSPipes` is proved against `Pipes` and `PipeStreams`, `SleepLists` against
`SleepQueue`, `Controllers` against the controller stacks of `Scheduler`, the class in `Mmu` against the functions
there.

## What the code does that its comments do not say

Each is stated, and where it can be, proved as the exact condition under which the code is right.

- `dll_move` does not move an item onto a list that is not empty (`DoublyLinkedList.Move`).
- After an insertion, `dll_assert( 1 != one )` in `Utilities/mpsafe_dll.h` asks for the opposite of what holds
  (`MpsafeList.GivenBackFromOne`).
- `TaskOpSwitchToCore` lets the number of cores pass as the number of a core; a task that asks for it never
  runs again (`MovingRuns.SwitchWorksIff`, `MovingRuns.AskedForTooMuch`).
- Releasing a lock looks only at the longest waiting task, whichever lock that waits for, and takes the new
  owner from its r[1] (`Locks.ReleaseLetsGoIff`, `Locks.WokenOwnsIff`, `Locks.ReleaseInVain`).
- `PipeNoMoreData` and `PipeNotListening` do not look at who calls (`Pipes.NoMoreDataIff`,
  `Pipes.NotListeningIff`, `SchedulerRuns.PipeCallKeepsIff`).
- Tasks due at one tick need not wake in order: with two due already, a third comes between them
  (`SleepQueue.FifoIff`, `SleepQueue.EqualDeadlinesAreNotFifo`).
- `push_controller` overwrites a lone controller, and with more, but not a full array, runs off the end of the
  array (`Controllers.PushController`, `Controllers.PushesInFrontIff`); in the system it only meets tasks without
  one (`SchedulerRuns.PushedOnEmpty`).
- A queue serves the last call first, and gives a call to the handler that came last (`QueueRuns.LastCallFirst`,
  `QueueRuns.LastHandlerFirst`).
- A SWI number of 2^24 or more loses its upper bits if the caller has to wait for a handler
  (`QueueRuns.EitherOrder`).
- `free_contiguous_memory` calls itself for ever with some unaligned blocks (`RawMemory.ReturnsIff`).
- Mapping pages for one core alone need not leave the other cores alone (`Mmu.OthersKeptIff`). Any core whose
  table for the section is shared puts them in the shared table (`Mmu.SharedTableLeaks`); core 0's table is the
  global one (`Mmu.Core0SharesItsOwn`); and where a core has not yet looked the section up, what the global table
  had there is replaced by a table with nothing in it (`Mmu.PrivateForgetsGlobal`), and forgotten by the core
  itself (`Mmu.NotReadyForgets`, `Mmu.RestOfSectionKeptIff`).
- Pages that run past the end of a section land at its start (`Mmu.RangeMappedIff`, `Mmu.PagesGoRound`,
  `Mmu.PagesStayInSection`).
- The comment that a free panics if any part of the block is free already holds only in a debugging build, and
  only for whole sections. Otherwise free does not look: the tables stay in order exactly when no piece is of one of
  the whole sections and no page of the rest is free (`RawMemory.Manager.FreeContiguousMemory`,
  `RawMemory.SectionsAdded`, `RawMemory.PieceAdded`). Part of a section freed twice is given out twice
  (`RawMemory.FreedTwice`). Callers who free only what they own are safe (`RawMemory.OwnedIsOrderly`,
  `RawMemory.NoPageTwice`).

## Model

| member | source | states |
|---|---|---|
| DoublyLinkedList.RingTurns | Utilities/doubly_linked_list.h:31-34 | A ring has no fixed start: moving the head on by one gives the ring of the sequence turned by one. |
| DoublyLinkedList.Attach | Utilities/doubly_linked_list.h:37-48 | On a heap ring of any length the item is put in front and becomes the head; nothing but its links and those of the two neighbours changes. |
| DoublyLinkedList.AttachAtTail | Utilities/doubly_linked_list.h:31-48 | Attach, then advance the head: the item is appended. |
| DoublyLinkedList.AttachBefore | OSTask/sleep.c:51-53 | Attached at any node of a ring, the item goes in front of that node, or last when that is the head come round. |
| DoublyLinkedList.Detach | Utilities/doubly_linked_list.h:52-59 | The item leaves its ring, which closes up, and becomes a ring of one. |
| DoublyLinkedList.Replace | Utilities/doubly_linked_list.h:82-100 | The second item stands exactly where the first one stood, also as head, and the first is a ring of one. |
| DoublyLinkedList.DetachUntil | Utilities/doubly_linked_list.h:102-116 | The prefix up to `last` becomes a ring of its own, the rest stays a ring, or the list is empty. |
| DoublyLinkedList.InsertListAtHead | Utilities/doubly_linked_list.h:117-129 | Two disjoint rings become the ring of their concatenation. |
| DoublyLinkedList.Move | Utilities/doubly_linked_list.h:64-78 | As written it makes a ring of the item and the second list exactly when the second list is empty. |
| MpsafeList.StepKeepsInv | Utilities/mpsafe_dll.h:23-122 | For any operation whose program, left alone with a list, does to the ring what the operation means: every read, compare-and-swap and program line of every core, and whatever owners do with items in no list, keeps the invariant: the word is 1 exactly while one core is inside, and what it still has to do will make rings of the right list and result. No program uses an item that is not its own. |
| MpsafeList.DirectKeepsInv | Utilities/mpsafe_dll.h:32-37 | The direct swap of 0 for the item, on an empty list, is the insertion. |
| MpsafeList.OneAtomicList | Utilities/mpsafe_dll.h:23-169 | For any number of cores, any such operations and any interleaving: 1 in the head word means exactly one core inside; otherwise there is a ring, with that head, of what the operations make when each happens at once, and each returned what it would then; the list is always of its kind. |
| MpsafeList.ReturnsRing | Utilities/mpsafe_dll.h:88-92 | What an operation returns is a ring of items that are in no list, and handed over to nobody: the caller's own. |
| MpsafeList.HeldUntilDone | Utilities/mpsafe_dll.h:83-96 | Over any run: the core that holds a list goes on holding it for exactly as many of its own steps as its program has left, and nothing else takes effect meanwhile. |
| MpsafeList.ThenLetGo | Utilities/mpsafe_dll.h:88-92 | With one more step the list is free, and is what the operation makes of it. |
| MpsafeList.EachOnce | Utilities/mpsafe_dll.h:23-122 | An operation takes effect once, in the step in which it returns, and not otherwise. |
| MpsafeList.NotHeldIsTaken | Utilities/mpsafe_dll.h:76-96 | A core that finds the list free and is not overtaken is done two steps later, or holds it with no more lines to run than the limit of its operation on a list of that length. |
| MpsafeList.GivenBackFromOne | Utilities/mpsafe_dll.h:41-42 | Where a list is given back, the word it finds is 1 (so the assertion that it is not would fail if it were compiled in). |
| ListMachine.SameRun | Utilities/mpsafe_dll.h:83-90 | What is in items that are not its own makes no difference to a program. |
| ListUpdates.AtHeadSound | Utilities/mpsafe_dll.h:36-45 | Insertion at the head, at most 6 lines: on every ring it leaves the ring of the longer list. |
| ListUpdates.AfterHeadSound | Utilities/mpsafe_dll.h:62-72 | Insertion after the head, at most 5 lines. |
| ListUpdates.AtTailSound | Utilities/mpsafe_dll.h:150-169 | Insertion at the tail, at most 9 lines. |
| ListUpdates.DetachHeadSound | Utilities/mpsafe_dll.h:123-136 | Detaching the head, at most 10 lines: the rest is a ring, and so is the head, which is the result. |
| ListUpdates.PutDownSound | OSTask/sleep.c:18-56 | put_to_sleep as an update of a shared list of any length, at most 6 lines for each task in it and 12: the ring of the specified queue. |
| ListUpdates.WakeUpSound | OSTask/sleep.c:58-81 | wakey_wakey, at most 4 lines for each task and 14: the tasks still asleep are a ring, those woken are another, which is the result. |
| ListUpdates.ForCoreSound | OSTask/ostask.c:581-607 | for_core, at most 3 lines for each task and 12: the first task for the core is taken off, alone, or none is. |
| ListUpdates.AddWokenSound | OSTask/sleep.c:83-91 | add_woken, at most 11 lines: a whole ring handed over goes behind the list. |
| ListUpdates.WhereTheyGo | Utilities/mpsafe_dll.h:23-169 | Where in the list each insertion puts its item, and from where the head is detached; all the others stay in order. |
| SharedLists.YieldInserts | OSTask/ostask.c:759-772 | A yield does to the runnable list what insertion at the tail of a shared list means. |
| SharedLists.ReleaseInserts | OSTask/ostask.c:408-424 | So does a release to any core. |
| SharedLists.IdleDetaches | OSTask/ostask.c:694-709 | The idle task that finds nobody for its core does what detaching the head means, and runs what is detached. |
| SharedLists.IdleFinds | OSTask/ostask.c:610-623 | If it finds a task for its core, it does to the list of tasks on the move what for_core means, and runs that task. |
| SharedLists.SleepPuts | OSTask/sleep.c:93-96 | Going to sleep is what put_to_sleep means as an update of a shared list. |
| SharedLists.TickWakes | OSTask/sleep.c:98-103 | A tick is what wakey_wakey means, and then add_woken on the runnable list. |
| CoreLock.StepKeepsInv | Processor/processor.h:118-137 | The lock names the one core in a section, and only that core's outermost section gave it the lock. |
| CoreLock.MutualExclusion | Processor/processor.h:108-137 | For any number of cores, nesting and interleaving: never two cores inside, and the lock is 0 exactly when none is. |
| CoreLock.KeptUntilOutermostLeaves | Processor/processor.h:108-137 | A lock that is held changes only to 0, and only when its owner leaves its outermost section. |
| SleepQueue.AddRefines | OSTask/sleep.c:18-56 | Putting a task to sleep for n ticks adds it to the map of remaining times with n, and leaves every other remaining time as it was. |
| SleepQueue.AddKeepsValid | OSTask/sleep.c:18-56 | The first delay stays above 0 and nobody is listed twice. |
| SleepQueue.TickRefines | OSTask/sleep.c:58-81 | A tick takes one from every remaining time; those woken are exactly the ones that reach 0, each with r[0] 0. |
| SleepQueue.TickPartition | OSTask/sleep.c:58-81 | Those woken and those still asleep are together those that slept, and none is both. |
| SleepQueue.TickKeepsValid | OSTask/sleep.c:58-81 | After a tick the first delay is above 0 again, so the next decrement does not wrap. |
| SleepQueue.SomethingLeft | OSTask/sleep.c:67 | Every sleeping task has at least one tick left to wait. |
| SleepQueue.StillAsleep | OSTask/sleep.c:93-103 | Over any run of adds and ticks a task sleeps on, with exactly the ticks left that it should have. |
| SleepQueue.WakesAtNthTick | OSTask/sleep.c:93-103 | A task put to sleep for n > 0 is woken by exactly the n-th later tick, with r[0] 0, whatever else is put to sleep. |
| SleepQueue.FifoIff | OSTask/sleep.c:35-53 | A task put to sleep comes after all those due at the same tick exactly when there is at most one of them. |
| SleepQueue.EqualDeadlinesAreNotFifo | OSTask/sleep.c:36-42 | At the failing input: three tasks due at one tick, that wake out of the order in which they went to sleep. |
| SleepLists.SkipEarlier | OSTask/sleep.c:35-49 | The loop over the heap ring finds the place, and changes the one delay, that the insertion on the sequence has. |
| SleepLists.PutTiredToSleep | OSTask/sleep.c:18-56 | In place, on a ring of any length: the ring holds the delays of the specified insertion. |
| SleepLists.WakeSleeping | OSTask/sleep.c:58-81 | In place: the woken tasks are a ring of their own, the others one with the delays the specification gives. |
| SleepLists.AddWoken | OSTask/sleep.c:83-91 | The woken ring goes behind the tasks already runnable. |
| SleepLists.SleepingTasksAdd | OSTask/sleep.c:93-96 | The whole addition on the heap, with the queue in order before and after. |
| SleepLists.SleepingTasksTick | OSTask/sleep.c:98-103 | The whole tick on the heap: woken tasks are appended to the runnable ring, with r[0] 0. |
| OSTasks.StopRunningTask | OSTask/ostask.h:421-437 | The idle task being in the ring too, the running task leaves it, and there is a next one. |
| OSTasks.Yield | OSTask/ostask.c:741-775 | In place: the caller goes from the ring of its core to the end of the runnable ring. |
| OSTasks.YieldAgrees | OSTask/ostask.c:741-775 | On structures that are the tasks of the scheduler's ring and runnable list: the two lists that Yield makes are those after the scheduler's step, and nothing else changes. |
| OSTasks.IdleTaskYield | OSTask/ostask.c:625-739 | In place, on four disjoint rings: the next task of the ring, else the sidelined ring comes back, else the first task moving to this core, else the first runnable one, else none; all other lists stay. |
| OSTasks.IdleYieldAgrees | OSTask/ostask.c:625-739 | The scheduler's step for the idle task makes the same ring and lists as the code. |
| OSTasks.ReleaseAgrees | OSTask/ostask.c:398-408 | On structures that are the tasks of the scheduler's ring: the ring that ReleaseOnThisCore makes has the tasks of the ring after the scheduler's step, and no other core's ring changes. |
| OSTasks.InterruptAgrees | OSTask/ostask.c:1387-1429 | The scheduler's interrupt makes the ring, and sets aside the ring, that the code does. |
| OSTasks.Restore | OSTask/ostask.c:650-658 | In place: the sidelined ring comes back behind the idle task, its head moved to the end. |
| OSTasks.ForCore | OSTask/ostask.c:581-607 | The search takes off the first task whose r[0] is this core, or none if there is none. |
| OSTasks.FindTask | OSTask/ostask.c:611-621 | The same, leaving the idle task and the runnable ring as they were. |
| OSTasks.ReleaseOnThisCore | OSTask/ostask.c:398-408 | In place: the released task goes right behind the running one. |
| OSTasks.Interrupt | OSTask/ostask.c:1387-1429 | In place: the ring without the idle task is set aside from the interrupted task (or the one after idle), and the new ring is the interrupt's task and idle, whichever task was interrupted. |
| OSTasks.DetachHead | Utilities/mpsafe_dll.h:123-136 | In place: the head leaves, alone; the rest is the list. |
| OSTasks.FindHandler | OSTask/queues.c:200-218 | The search takes off the first handler that accepts the call, or none if none does. |
| OSTasks.FindHandlerAgrees | OSTask/queues.c:200-237 | The handler that the search finds is the one that the scheduler's step takes. |
| OSTasks.BlockOnLock | OSTask/locks.c:70-76 | The caller goes from the ring of its core to the end of the blocked ring. |
| OSTasks.SearchFrom | OSTask/locks.c:110-112 | The search goes from where it starts to a task that waits for the lock, but no further than the head; started at the head it stays there. |
| OSTasks.HandOver | OSTask/locks.c:105-147 | In place, the search from the head included, and compared with the specified release: the same list of waiters, the same word, and the same task woken, or none. |
| OSTasks.StillWanted | OSTask/locks.c:134-139 | The loop finds whether any task of the ring waits for the lock. |
| Controllers.PushController | OSTask/ostask.h:264-316 | On the array, whatever is in it: with none or one in use the new controller is alone afterwards; a full array refuses; with any other number the loop fills the array with copies of the last controller and runs off its end. |
| Controllers.PushesInFrontIff | OSTask/ostask.h:290-296 | It pushes the controller in front of the others exactly when there are none; a lone one is lost. |
| Controllers.PopController | OSTask/ostask.h:318-357 | On the array: the first entry goes, the others keep their order; false exactly on an empty array. |
| Handles.HandleRoundTrip | OSTask/ostask.h:72-110 | A handle leads back to its structure except for one at the address of the constant itself. |
| Handles.TaskHandleIsEven | OSTask/ostask.h:68-76 | The handle of a task leaves the two low bits free. |
| Handles.QueueHandleIsOdd | OSTask/ostask.h:84-110 | The handle of a queue is odd. |
| Scheduler.StepKeepsInv | OSTask/ostask.c:347-1005 | Every SVC, tick and interrupt on every core keeps every task in exactly one place, each core's idle task in its ring, at most one controller a task, no queue with both callers and handlers, the sleep queue and the pipes in order. |
| Scheduler.YieldKeeps | OSTask/ostask.c:625-775 | A yield, of the idle task or another, in all its cases, leaves every task in one place and the system in order; where the task goes is in Whereabouts.YieldThenRun. |
| Scheduler.SleepKeeps | OSTask/ostask.c:777-799 | Going to sleep. |
| Scheduler.CreateKeeps | OSTask/ostask.c:801-872 | A new task moves from the pool to its controller. |
| Scheduler.ReleaseKeeps | OSTask/ostask.c:347-425 | A release moves the task from its controller to the ring or the runnable list. |
| Scheduler.SwitchKeeps | OSTask/ostask.c:974-1005 | Asking for another core. |
| Scheduler.WaitKeeps | OSTask/ostask.c:914-927 | Waiting for an interrupt. |
| Scheduler.TickKeeps | OSTask/sleep.c:98-103 | A tick moves tasks from asleep to runnable and loses none. |
| Scheduler.InterruptKeeps | OSTask/ostask.c:1385-1429 | An interrupt sidelines the ring and loses none of it. |
| Scheduler.QueueWaitKeeps | OSTask/queues.c:95-161 | A handler waits, or takes control of the first caller; it never meets a task that already has a controller. |
| Scheduler.QueueCallKeeps | OSTask/queues.c:165-253 | A caller waits, or comes under the control of a handler that runs at once. |
| Scheduler.FirstHandlerTakes | OSTask/queues.c:203-217 | With fewer than 64 cores the match bits are never set, so the first handler waiting takes the call. |
| Scheduler.LockClaimKeeps | OSTask/locks.c:43-89 | Claiming a lock, whether it blocks or not. |
| Scheduler.LockReleaseKeeps | OSTask/locks.c:91-158 | Releasing a lock, whoever is woken. |
| SchedulerRuns.BootInv | OSTask/ostask.c:152-177 | The state after boot, for any number of cores up to 64, is in order. |
| SchedulerRuns.RunKeepsInv | OSTask/ostask.c:347-1005 | Over any run of any number of cores: every task is in exactly one place, no task appears or vanishes, and each core keeps its idle task. |
| SchedulerRuns.PipeCallKeepsIff | OSTask/pipes.c:599-614 | A pipe operation that goes on leaves the system in order exactly when it does not give up an end at which a task is blocked; what becomes of a task it wakes is in Whereabouts.WokenThenRun. |
| SchedulerRuns.StopsIff | OSTask/ostask.c:378-386 | With the assertions of stop_running_task about the idle task and the ring, and the PANICs of queues and pipes, among the outcomes of a step: in a reachable state a step stops the system exactly for the reasons listed (no task left to create, not the controller, and so on); those assertions and PANICs are not among them. RunningFlags.SystemStopsIff adds the assertions about flags. |
| SchedulerRuns.StopFailsIff | OSTask/ostask.h:425-436 | In a reachable state the assertions of stop_running_task that it is not the idle task that stops, and that there is another task to go on with, fail exactly for the idle task, which never gets there. RunningFlags.StoppingFailsIff adds those about flags. |
| SchedulerRuns.QueueingGoesOn | OSTask/queues.c:107-147 | Waiting and calling always go on: the PANICs on a ring with no other task, and beside the push of a controller, are not reached. |
| SchedulerRuns.PipeStopsIff | OSTask/pipes.c:512-515 | In a reachable state the PANICs on waiting ends are met only by giving up one end while the other waits. |
| SchedulerRuns.WaitingIsStopped | OSTask/pipes.c:650-653 | In every reachable state a task waiting at a pipe lacks what it waits for and is stopped: in no ring and not runnable. |
| SchedulerRuns.IdleInterruptIsClean | OSTask/ostask.c:1385 | When the idle task is interrupted no ring is sidelined. |
| SchedulerRuns.ControlledIff | OSTask/ostask.h:264-384 | A task has a controller exactly when it is in no list and nowhere else, and then it has one. |
| SchedulerRuns.PushedOnEmpty | OSTask/ostask.h:290-296 | Every task that is given a controller had none. |
| RunningFlags.StepHolds | OSTask/ostask.h:421-463 | With the flag of every task, and all assertions about flags as outcomes, on stopping, saving, going on with the same task or with another, idling and interrupting: where exactly the running tasks have their flags set, a step on any core stops the system exactly where it would without flags, and leaves exactly the running tasks with their flags set. |
| RunningFlags.RunHolds | OSTask/ostask.c:1284-1290 | Over any run of any number of cores no assertion about a flag fails, and a task has its flag set exactly while some core runs it. |
| RunningFlags.SystemStopsIff | OSTask/ostask.c:257-266 | In a reachable state a step stops the system exactly for the reasons listed: none is an assertion about a flag, or a PANIC of save_task_state. |
| RunningFlags.StoppingFailsIff | OSTask/ostask.h:421-437 | Of the assertions of stop_running_task, and the PANICs of save_task_state in it, one fails exactly for the idle task. |
| RunningFlags.RunsOnOne | OSTask/ostask.h:453-454 | A task runs on one core at most. |
| RunningFlags.BootRight | OSTask/ostask.c:153-195 | The boot code leaves the flags right on any number of cores up to 64. |
| RunningFlags.AssertionsCatch | OSTask/ostask.h:421-463 | Whatever flags are set: which of them make the assertions fail, on stopping a task, on an interrupt, and on going on with the same task. |
| Whereabouts.YieldGoesLast | OSTask/ostask.c:759-775 | A task that yields, or sleeps for no ticks, becomes the last of those that may run on any core, and the next of its ring goes on. |
| Whereabouts.YieldThenRun | OSTask/ostask.c:759-775 | Over any run of all the cores: it runs, on the core that takes one more, when as many tasks have been taken off the runnable list as were there before it. |
| Whereabouts.WokenIsRunnable | OSTask/pipes.c:517-534 | Only an operation on a pipe ends a wait there, and the task that waited is then the last of those that may run. |
| Whereabouts.WokenThenRun | OSTask/pipes.c:686-701 | No wakeup is lost in the system as a whole: over any run, a task whose wait at a pipe has ended runs when its turn comes. |
| Whereabouts.GrantedIsRunnable | OSTask/locks.c:105-158 | Only a release ends a wait for a lock, and the task that waited is then the last of those that may run. |
| Whereabouts.GrantedThenRun | OSTask/locks.c:144-147 | Over any run it runs when its turn comes. |
| Whereabouts.TickAppends | OSTask/sleep.c:83-103 | The tasks that a tick wakes join those that may run at the end, in the order in which they slept. |
| Whereabouts.EndedForGood | OSTask/ostask.c:875-888 | Over any run a task that has ended itself never runs again, on any core. |
| Whereabouts.CreateGives | OSTask/ostask.c:802-872 | A task is made of the first in the pool; its maker gets control of it, it has its own handle in r[0], and no other task comes under anybody. |
| Whereabouts.OnlyMakerReleases | OSTask/ostask.c:348-386 | On any core exactly its maker can release it. |
| Whereabouts.NewPipesAndQueues | OSTask/pipes.c:124-179 | A new pipe is empty, of the size asked for, and its maker's at both ends; a new queue has nobody waiting; the others keep their places. |
| Whereabouts.SwitchGoes | OSTask/ostask.c:975-1005 | Asking for the core it is on changes nothing at all; asking for another takes a task to the end of the list of those on the move. |
| Whereabouts.WaitThenInterrupt | OSTask/ostask.c:915-927 | Over any run: the task that waits for an interrupt is what the next interrupt of its core runs, with interrupts masked for the idle task; no other can wait there meanwhile. |
| QueueRuns.CallOutcome | OSTask/queues.c:190-253 | A call goes to the first handler that waits, whatever else is in the queue, or joins the queue with its SWI and core in its word. |
| QueueRuns.WaitOutcome | OSTask/queues.c:116-161 | A handler takes the first caller, with what is in its word, or joins the queue. |
| QueueRuns.OnlyTaken | OSTask/queues.c:95-253 | No step of any core removes a task from a queue, or touches its word, but the one that takes it there. |
| QueueRuns.CallThenWait | OSTask/queues.c:134-147 | Caller first, whoever else waits: over any run of all cores the call stays in the queue as it was made, until a handler takes it; that ends with the caller's handle, SWI (cut to 24 bits) and core, in control of it, and goes on running. |
| QueueRuns.WaitThenCall | OSTask/queues.c:220-237 | Handler first, whoever else waits: over any run of all cores it stays in the queue until a call takes it; it then has the caller's handle, SWI and core, is in control of it, and runs at once on the caller's core. |
| QueueRuns.EitherOrder | OSTask/queues.c:95-253 | A handler that comes to a waiting call, and one that waits when the same call is made: either way it gets control of the caller and runs; it finds the same in its registers exactly when the number of the SWI is below 2^24. |
| QueueRuns.LastCallFirst | OSTask/queues.c:130-246 | Over any run with neither calls nor waits at the queue: the next handler to wait there gets the task that called last, whoever waited before it. |
| QueueRuns.LastHandlerFirst | OSTask/queues.c:124-128 | And the next call goes to the handler that came last. |
| InterruptRuns.InterruptThenRestore | OSTask/ostask.c:641-673 | From an interrupt, over any run of all cores: the tasks of the ring, without the idle task, stay set aside in their order until the idle task, alone and still masked, takes them all back behind it, turned round by one; for rings of any length and whichever task was interrupted. |
| InterruptRuns.SidelinedUntilRestored | OSTask/ostask.c:650-655 | Each step of any core leaves what is set aside as it is, or is the one that takes it back. |
| SchedulerFrames.MovingAfter | OSTask/ostask.c:1001-1002 | Tasks get on the moving list at its end, and off it only to the core they asked for. |
| MovingRuns.StuckForever | OSTask/ostask.c:991-1002 | A task moving to a core that there is not stays on the moving list in every later state. |
| MovingRuns.GetsThere | OSTask/ostask.c:581-621 | Any task moving to a core there is comes to run there, if that core yields often enough, whatever it runs and has sidelined before. |
| MovingRuns.GetsThereIff | OSTask/ostask.c:581-621 | A task on the move can be got to run on the core it asked for, and off the list at all, exactly when there is such a core. |
| MovingRuns.SwitchWorksIff | OSTask/ostask.c:987-1002 | A request to move that does not stop the system can come true exactly when the number is not number_of_cores. |
| MovingRuns.AskedForTooMuch | OSTask/ostask.c:991-1002 | At the failing input: any task may ask for the core numbered number_of_cores, and then runs nowhere again. |
| Sleepers.SleepersValid | OSTask/sleep.c:93-96 | In every reachable state the sleep queue is in order, so its theorems apply to the system. |
| Sleepers.SleeperAfter | OSTask/sleep.c:58-81 | No step of any core but a tick makes a difference to a sleeping task. |
| Sleepers.SleepsUntil | OSTask/sleep.c:93-103 | In any run of the whole system a sleeping task has exactly the ticks left that it should. |
| Sleepers.SleepThenWake | OSTask/ostask.c:777-799 | A task that sleeps for n ticks is asleep until the n-th tick of the system, and runnable after it. |
| SchedulerOrder.StepInOrder | OSTask/ostask.c:694-732 | Every step adds to the end of the runnable list, or takes its head to run at once. |
| SchedulerOrder.FirstComeFirstServed | OSTask/ostask.c:694-775 | In any run a runnable task moves up by exactly one place for each task any core takes. |
| SchedulerOrder.TakenInTurn | OSTask/ostask.c:694-732 | The task with k before it is the one that runs when, after k others, one more is taken. |
| SchedulerOrder.ReleasedRunsNext | OSTask/ostask.c:395-422 | A task released to this core is the next to run there; one released otherwise is the last of the runnable. |
| SchedulerOrder.OnlyNewControllerReleases | OSTask/ostask.c:427-448 | Once control has been passed on, exactly the new controller can release the task. |
| Queues.SwiWordRoundTrip | OSTask/ostask.h:151-163 | The core reads back from the word, the SWI exactly if it is below 2^24. |
| Queues.TakesEverythingIff | OSTask/queues.c:204-207 | A word a caller left makes its task, as a handler, take every call exactly when the call came from one of the first 64 cores. |
| Queues.FirstTaker | OSTask/queues.c:200-218 | The first handler that takes the call, none before it doing so. |
| Locks.ClaimKeepsInv | OSTask/locks.c:60-84 | Claiming keeps: owner iff word not 0, wanted bit iff somebody waits, nobody waits twice. What the claim is answered is in Locks.AnswerIff. |
| Locks.AnswerIff | OSTask/locks.c:60-84 | A claim is answered with 0 exactly when nobody has the lock, with 1 exactly when the caller has it already, and made to wait exactly when another has it. |
| Locks.KeptUntilOutermost | OSTask/locks.c:60-158 | Over any run of claims inside claims, by any tasks, each releasing only for a claim that was told that the lock was not its own: a task has the lock exactly until it undoes its outermost claim, and no two tasks have claims at once. |
| Locks.HandOver | OSTask/locks.c:114-147 | The longest waiting task becomes the owner, with the wanted bit exactly if others still wait. |
| Locks.OneLock | OSTask/locks.c:43-158 | Over any run with one lock and own handles in r[1]: at most one holder, wanted bit iff waiters, an idle lock has none, and ownership passes in the order of blocking. |
| LockRuns.StepAgrees | OSTask/locks.c:43-158 | A step of any core of the whole system, in which any claim and release is for the one lock, is a step of the machine of that lock, or leaves it alone. |
| LockRuns.OneLockInSystem | OSTask/locks.c:43-158 | Over any run of the whole system in which tasks use one lock, with their own handles in r[1]: one task at most has it, the word names it, with the wanted bit iff any waits; those who wait are stopped, and get it in the order they came. |
| LockRuns.BootAgrees | OSTask/locks.c:20-34 | The system starts with every task known by a handle, and the lock free. |
| Locks.ReleaseLetsGoIff | OSTask/locks.c:105-115 | With any number of locks a release lets go exactly when nobody waits for any lock, or the first that waits is for this one and has not the owner's handle in r[1]. |
| Locks.WokenOwnsIff | OSTask/locks.c:132-143 | The task woken owns the lock exactly when its own handle was in r[1]. |
| Locks.ReleaseInVain | OSTask/locks.c:110-114 | Two locks and four tasks where a release does nothing. |
| Pipes.CreateOk | OSTask/pipes.c:145-172 | A new pipe is in order and blocks nobody. |
| Pipes.StepKeepsOk | OSTask/pipes.c:442-704 | No wakeup is lost: after every operation whoever waits lacks what it waits for; a task is woken only from being blocked, with at least what it asked for, and waits no more. |
| Pipes.PanicsOnlyIf | OSTask/pipes.c:512-515 | The PANICs on inconsistent ends are unreachable; only giving up one end while the other waits stops the system. |
| Pipes.NoMoreDataIff | OSTask/pipes.c:599-614 | Giving up the sending end leaves the pipe in order exactly when no sender waits, whoever calls. |
| Pipes.NotListeningIff | OSTask/pipes.c:743-759 | Likewise the receiving end. |
| Pipes.BothBlockedIff | OSTask/pipes.c:466-477 | Of the runs of operations on a new pipe, by any tasks, one blocks both ends for the two amounts exactly when these come to max_block_size + 2 or more. |
| Pipes.StepCounts | OSTask/pipes.c:517-534 | Each block is ended by at most one wake. |
| Pipes.WaitsIff | OSTask/pipes.c:442-480 | A wait is refused exactly when the end is another's or done with; it blocks exactly when there is not enough and the other end is not done with; it is answered with all there is. |
| Pipes.AmountsIff | OSTask/pipes.c:485-537 | An amount is refused exactly when the end is another's, or it is too much; it is added to what has been sent, or read; and a task at the other end is woken exactly when it waits for no more than there is then. |
| Pipes.SenderIsPrivate | OSTask/pipes.c:450-454 | While a task has the sending end, nothing another asks for, short of giving the end up, changes that, or what has been sent, or its wait but to end it. |
| Pipes.ReceiverIsPrivate | OSTask/pipes.c:623-627 | Likewise the receiving end. |
| Pipes.HandedOn | OSTask/pipes.c:555-590 | An end that is handed on is the other task's, or anyone's, nothing else changes, and all but the task whose end it is are refused. |
| PipeIndices.WrapIsHarmlessIff | OSTask/pipes.c:424-440 | An index modulo 2^32 gives the right place in the pipe for every amount of data exactly when the size divides 2^32. |
| OSPipes.OSPipe.DataInPipe | OSTask/pipes.c:414-417 | The subtraction of wrapped 32-bit indices is the data there is. |
| OSPipes.OSPipe.SpaceInPipe | OSTask/pipes.c:419-422 | Likewise the space. |
| OSPipes.OSPipe.ReadLocation | OSTask/pipes.c:424-431 | The place is that of the next unread byte, for sizes that divide 2^32, and for others until 2^32 bytes were written. |
| OSPipes.OSPipe.WriteLocation | OSTask/pipes.c:433-440 | Likewise of the next byte to be written. |
| OSPipes.OSPipe.constructor | OSTask/pipes.c:145-172 | An empty pipe. |
| OSPipes.OSPipe.StreamIs | OSTask/pipes.c:414-440 | The bytes and the two words in place are in order as a stream, and what is unread there is what has been sent and not yet consumed. |
| OSPipes.OSPipe.WaitForSpace | OSTask/pipes.c:442-480 | In place, with wrapping indices: answers, blocks or refuses exactly as specified; and an answer tells of all the space there is, and of where it is: the places after the data, in order, in the doubled mapping, at none of which an unread byte is. |
| OSPipes.OSPipe.SpaceFilled | OSTask/pipes.c:485-537 | Commits exactly the bytes that are in the window of the memory, in order; tells the sender of the space left and where it is, and the receiver, if it is due, of the data and where that is; what the receiver was told of before stays; never panics; on memory and indices it is the step of PipeStreams. |
| OSPipes.OSPipe.WaitForData | OSTask/pipes.c:616-657 | Answers, blocks or refuses as specified; and an answer tells of all the data there is, and of where it is: the bytes sent and not yet consumed, in order. |
| OSPipes.OSPipe.DataConsumed | OSTask/pipes.c:659-704 | Consumes as specified; tells the receiver of the data left and where it is, and the sender, if it is due, of the space and where that is; what the sender was told of before stays; never panics; on memory and indices it is the step of PipeStreams. |
| OSPipes.OSPipe.SetSender | OSTask/pipes.c:555-590 | Hands on the sending end as specified. |
| OSPipes.OSPipe.SetReceiver | OSTask/pipes.c:706-741 | Hands on the receiving end as specified. |
| OSPipes.OSPipe.UnreadData | OSTask/pipes.c:592-597 | The amount sent and not yet consumed, whoever asks. |
| OSPipes.OSPipe.NoMoreData | OSTask/pipes.c:599-614 | Gives up the sending end as specified, whoever calls; the pipe is in order afterwards exactly when no sender was blocked. |
| OSPipes.OSPipe.NotListening | OSTask/pipes.c:743-759 | Gives up the receiving end as specified, whoever calls; the pipe is in order afterwards exactly when no receiver was blocked. |
| OSPipes.OSPipe.Store | OSTask/pipes.c:433-440 | A byte written at any place of the space that the sender was told of falls inside the doubled mapping, on no unread byte, and is what will be sent at that point. |
| OSPipes.OSPipe.Load | OSTask/pipes.c:424-431 | A byte read at any place of the data that the receiver was told of falls inside the doubled mapping, and is the one that was sent, in its turn. |
| PipeStreams.SpaceIsApart | OSTask/pipes.c:414-440 | No place in the space the sender is granted is one of an unread byte, however the indices have wrapped. |
| PipeStreams.StepKeepsStream | OSTask/pipes.c:504 | Each write, commit and consumption: the unread bytes and those committed are those handed over and those unread then. |
| PipeStreams.BytesInOrder | OSTask/pipes.c:414-440 | Over a run of any length: what was unread, and then all that was sent, is all that was received, and then what is unread, byte for byte; for every size that divides 2^32, and for others while the indices do not wrap. |
| PipeStreams.ReceivedIsSent | OSTask/pipes.c:485-508 | From an empty pipe the receiver gets exactly the bytes sent, in order, but for those still unread. |
| Bits.BitShl | RawMemory/raw_memory_manager.c:154-160 | Bit k of w << n is bit k + n of w, for every n including 32. |
| Bits.BitShr | RawMemory/raw_memory_manager.c:88-89 | Bit k of w >> n is bit k - n of w. |
| RawMemory.OneWordMask | RawMemory/raw_memory_manager.c:88-95 | The two masks together are exactly the sections asked for, when those are in one word. |
| RawMemory.ClaimMask | RawMemory/raw_memory_manager.c:159-161 | The mask of a claim is exactly the sections claimed. |
| RawMemory.CountLeadingZeros | RawMemory/raw_memory_manager.c:119-128 | The number of clear bits before the first that is set; 32 if none is. |
| RawMemory.CountLeadingOnes | RawMemory/raw_memory_manager.c:130-133 | The number of set bits before the first that is clear. |
| RawMemory.ReturnsIff | RawMemory/raw_memory_manager.c:41-54 | A free returns, at whatever depth of calls, exactly when its base is section aligned or the block ends before the end of its section. |
| RawMemory.Manager.SetSections | RawMemory/raw_memory_manager.c:79-114 | Sets exactly the bits of the sections freed, over first, middle and last words, also when the block ends at a word boundary or at the end of the table. |
| RawMemory.Manager.FreeSections | RawMemory/raw_memory_manager.c:75-115 | Whatever is free already: exactly those pages join the free ones, no piece changes, and the tables are in order afterwards exactly when they were and no piece is of one of those sections. |
| RawMemory.Manager.FreePiece | RawMemory/raw_memory_manager.c:58-73 | Whatever is free already: a part of a section goes into the first empty slot, and fails exactly when there is none; the tables are in order afterwards exactly when they were and no page of it was free. |
| RawMemory.Manager.FreeContiguousMemory | RawMemory/raw_memory_manager.c:26-117 | Whatever is free already: exactly [base, base + pages) joins the free pages, the parts of the split included; it panics exactly when a slot is needed and none is empty; the tables are in order afterwards exactly when they were, no piece is of one of the whole sections, and no page of the rest was free. |
| RawMemory.SectionsAdded | RawMemory/raw_memory_manager.c:25 | Setting bits of sections, set already or not, keeps the tables in order exactly when none of the sections has a piece in the table. |
| RawMemory.PieceAdded | RawMemory/raw_memory_manager.c:25 | Putting a piece in an empty slot keeps the tables in order exactly when no page of it was free. |
| RawMemory.FreedTwice | RawMemory/raw_memory_manager.c:58-73 | At the failing input: part of a section freed twice is in the table twice, and two claims of as many pages get the same block. |
| RawMemory.Manager.ClaimInWord | RawMemory/raw_memory_manager.c:151-169 | The lowest run in the word, if any, and clears exactly its bits. |
| RawMemory.Manager.ClaimSections | RawMemory/raw_memory_manager.c:142-172 | The lowest run of that many free sections within one word of the bitmap; unavailable exactly when no word has one. |
| RawMemory.Manager.FindPiece | RawMemory/raw_memory_manager.c:174-180 | The first piece large enough, or none exactly if there is none, and the last empty slot before it. |
| RawMemory.Manager.ClaimPages | RawMemory/raw_memory_manager.c:173-198 | 1 to 255 pages come from the start of the first piece large enough, whatever is in the tables; they are unavailable exactly when no piece is large enough and either no slot is empty or no section is free. |
| RawMemory.Manager.SplitSection | RawMemory/raw_memory_manager.c:182-192 | The lowest free section is claimed, the pages are the first of it, and what is left over is kept as a piece. |
| RawMemory.Manager.ClaimContiguousMemory | RawMemory/raw_memory_manager.c:136-203 | Removes exactly [result, result + pages), all of it free before, from the free pages; returns the lowest run for whole sections; exact conditions for unavailable and for panic. |
| RawMemory.Manager.constructor | RawMemory/raw_memory_manager.c:25-36 | Zeroed tables have no free memory. |
| RawMemory.NoPageTwice | RawMemory/raw_memory_manager.c:26-203 | Over any run of claims, frees, and divisions and joinings of blocks by their owners: each page free or owned at the start is so, once, at the end; none is ever owned twice, or owned and free, or lost. |
| RawMemory.OwnedIsOrderly | RawMemory/raw_memory_manager.c:25-26 | Of a block that a caller owns no page is free, and it meets the condition under which a free keeps the tables in order. |
| Mmu.MapMemoryKeepsInv | Processor/VMSAv6/mmu.c:356-583 | Tables in use are never free ones, and no table serves two sections of one core or of two. |
| Mmu.NewTableKeepsInv | Processor/VMSAv6/mmu.c:199-228 | The table given out was unused, and is no longer free. |
| Mmu.MapMemoryRefines | Processor/VMSAv6/mmu.c:356-583 | For the calling core map_memory updates a flat map of pages: each page of the range to base_page + i, with the kind, the access for user code, the address space and the sharing that were asked for, and every other page as it was, splitting a section's fault handler into a table included. |
| Mmu.SectionsRefine | Processor/VMSAv6/mmu.c:387-430 | The same for whole sections, without any condition. |
| Mmu.PageAsAsked | Processor/VMSAv6/mmu.c:356-583 | Without any condition on the tables: whole sections, and up to 256 pages as far as they are in the section of the first, mean to the calling core what was asked for. |
| Mmu.PagesStayInSection | Processor/VMSAv6/mmu.c:546-553 | Pages that run past the end of the section change no other section, for any core: the 8-bit page number goes round. |
| Mmu.PagesGoRound | Processor/VMSAv6/mmu.c:546-553 | Page i is mapped to base_page + i, for each of the last 256 pages, those past the end of the section at its start. |
| Mmu.RangeMappedIff | Processor/VMSAv6/mmu.c:546-553 | Every page of a range that is not whole sections comes to mean what it should exactly when there are no more than 256, and those past the end of the section meant that before. |
| Mmu.NotReadyForgets | Processor/VMSAv6/mmu.c:497-506 | Where the global table has something else for the section, the calling core forgets that. |
| Mmu.RestOfSectionKeptIff | Processor/VMSAv6/mmu.c:463-508 | Exactly when mapping pages leaves the rest of their section as it was for the calling core. |
| Mmu.OthersKeptIff | Processor/VMSAv6/mmu.c:433-559 | The exact condition, on the entries for the section, for pages that one core maps for itself alone to leave another core's view of the section alone. |
| Mmu.SharedTableLeaks | Processor/VMSAv6/mmu.c:445-446 | At one failing input: two cores with the same table; pages that either maps for itself alone are the other's too. |
| Mmu.PrivateForgetsGlobal | Processor/VMSAv6/mmu.c:497-506 | At another: a section of the global table that the core has not looked up is gone, for core 0 and for all that have yet to look. |
| Mmu.CoherentCoresAgree | Processor/VMSAv6/mmu.c:627-646 | Where each core's entry is still to be looked up or is the global one, a page means the same to every core. |
| Mmu.MissKeeps | Processor/VMSAv6/mmu.c:632-646 | A level 1 fault changes the meaning of no page for any core, and leaves the core with the global entry. |
| Mmu.StepForAll | Processor/VMSAv6/mmu.c:463-516 | One mapping for all cores, or one fault, by any core: to every core the page means what it did or what it has just been mapped to. |
| Mmu.AllCoresAgree | Processor/VMSAv6/mmu.c:417-429 | Over any run, whichever cores map, in whatever order, and whichever fault, a page of a section mapped only for all cores means the same to every core: what it was last mapped to. |
| Mmu.BootOk | Processor/VMSAv6/mmu.c:691-773 | The tables that the cores start with are in order, and all cores agree on every section but the last. |
| Mmu.BootMaps | Processor/VMSAv6/mmu.c:691-773 | At boot, to every core: the image is where it runs, the rest of memory where it is, and below the last section nothing else is mapped. |
| Mmu.Core0SharesItsOwn | Processor/VMSAv6/mmu.c:497-508 | Pages that core 0 maps for itself alone are seen by every core that has yet to look the section up. |
| Mmu.HandlerFound | Processor/VMSAv6/mmu.c:958-975 | The handler found for an address is the one the tables name, and there is one exactly where an access faults. |
| Mmu.OneFaultIsEnough | Processor/VMSAv6/mmu.c:627-646 | Where a section is to be looked up, a fault finds check_global_table, and after it the core's own tables give every page of the section its meaning. |
| Mmu.TableEntryRoundTrip | Processor/VMSAv6/mmu.c:169-197 | The entry made for a level 2 table leads back to it exactly when the table is where the shared tables are mapped. |
| Mmu.TableEntriesDiffer | Processor/VMSAv6/mmu.c:185-197 | Different tables have different entries. |
| Descriptors.SectionWord | Processor/VMSAv6/mmu.c:391-415 | The word written for a section, read as the processor reads it: its base, writable and executable as the kind of memory says, open to user code, of one address space and shareable as asked for; all other fields clear. |
| Descriptors.PageWord | Processor/VMSAv6/mmu.c:522-542 | Likewise the word written for a page. |
| Descriptors.NextSection | Processor/VMSAv6/mmu.c:417-429 | Going on to the next section changes the base, by one, in its 12 bits, and nothing that is allowed. |
| Descriptors.NextPage | Processor/VMSAv6/mmu.c:546-553 | Likewise to the next page, in 20 bits. |
| Descriptors.MappedGrants | Processor/VMSAv6/mmu.c:356-583 | After map_memory the calling core may do with the pages mapped what was asked for, and nothing else. |
| Mmu.TranslationTables.GetFreeTable | Processor/VMSAv6/mmu.c:199-228 | In place: the second table of the ring, filled with one handler; fails exactly when that is the last. |
| Mmu.TranslationTables.MapWholeSections | Processor/VMSAv6/mmu.c:415-429 | The loops over sections, for one core or for all. |
| Mmu.TranslationTables.WritePages | Processor/VMSAv6/mmu.c:546-553 | The loop over pages, into the core's table and the global one. |
| Mmu.TranslationTables.MapIntoTable | Processor/VMSAv6/mmu.c:509-553 | Pages into a table there is. |
| Mmu.TranslationTables.MapFreshTable | Processor/VMSAv6/mmu.c:480-559 | Pages into a table made for them. |
| Mmu.TranslationTables.Map | Processor/VMSAv6/mmu.c:356-583 | In place: panics exactly where the specified mapping does, and otherwise leaves the tables it says, in which the pages mapped mean to the calling core what was asked for. |
| RectCopy.SetPixel | Modules/System/Pi/Legacy/BCM2835GrV/module.c:148-152 | Changes the pixel at x, y and no other. |
| RectCopy.RowRightToLeft | Modules/System/Pi/Legacy/BCM2835GrV/module.c:176-180 | One row, correct for any overlap when the source is to the left or in another row. |
| RectCopy.RowLeftToRight | Modules/System/Pi/Legacy/BCM2835GrV/module.c:184-188 | One row, correct for any overlap when the source is not to the left or in another row. |
| RectCopy.RectCopy | Modules/System/Pi/Legacy/BCM2835GrV/module.c:163-210 | Every destination pixel is what the source held before, and no other pixel changes, for every pair of on-screen rectangles and any overlap. |
| RectCopy.NextRow | Modules/System/Pi/Legacy/BCM2835GrV/module.c:172-209 | In the order the rows are taken no row copied spoils the source of a later one. |
| RectCopy.ThereAndBack | Modules/System/Pi/Legacy/BCM2835GrV/module.c:163-210 | Copying there and back leaves the source as it was, however the two overlap. |

## Left out

- Scheduler.StepKeepsInv: an SVC is one step. Within it the code takes its locks one after another; `MpsafeList` and `CoreLock` prove the atomicity of each list and each locked section, not of a whole SVC that touches several lists.
- MpsafeList.StepKeepsInv: the test of the moving list for 0 before it is taken, and detaching an item other than the head, which nothing uses, are left out.
- Scheduler.Enabled: the idle task only yields and cannot be interrupted while it masks interrupts, as the code arranges; NoMoreData and NotListening come when no task waits at the end that is given up.
- Scheduler.DoRelease: whether the released task stays on the core is a parameter, standing for the interrupt bit of its saved status word; its other registers are not modelled.
- Scheduler.DoCreate: the alignment error of the initial stack, slots and the registers of the new task are left out; no task in the pool, where the code would use a null pointer, stops the run.
- Scheduler.DoQueueWait: waiting for calls of one SWI or one core, where the code panics, is left out.
- Scheduler.DoPipeCreate: for memory the pipe owns; the size limit, and a pool of pipes that is used up, are left out.
- Pipes.Step: the virtual addresses are fixed; a pipe finished with at both ends stays, where the code gives it back to the pool; the log pipe and its unlocked writer are left out.
- OSPipes.OSPipe.WriteLocation: pipes mapped once, whose index is never reduced, are not modelled.
- LockRuns.OneLockInSystem: needs one lock word, and each claimer's own handle in r[1]; `Locks.ReleaseLetsGoIff` and `Locks.WokenOwnsIff` say what happens otherwise.
- Controllers.PushController: where the code goes on behind the end of the array, which is outside the structure modelled, the outcome says so and the run ends.
- RawMemory.Manager.FreeContiguousMemory: excludes the blocks for which the code does not return (`RawMemory.ReturnsIff`).
- SchedulerRuns.StopsIff: the assertions that a saved address or the saved lr is not nought, that a register still has what was put there, where a structure lies in memory, and that a core lock was not held already, are no outcomes.
- RunningFlags.SystemStep: is about the calls of the scheduler's steps; SetController, which panics, and the legacy SWI code, which sets and clears flags of its own, are left out.
- RawMemory.Manager.ClaimContiguousMemory: excludes a claim of no pages, where the code shifts by 32.
- RawMemory.Manager.SetSections: the shift counts are those of the processor, where 32 leaves nothing; the C language does not define it.
- Mmu.MapMemory: the top MiB, whose tables are part of each core's workspace, is treated as any other section; addresses are whole pages; the lock, the caches and the translation buffers are left out.
- Descriptors.SectionWord: the attributes in the tables of `Mmu` stand for such words; numbers of sections and pages are not words there.
- Mmu.LookUp: faults at level 2, which copy entries of the kernel's own table, are left out.
- Mmu.AllCoresAgree: is about sections mapped for all cores, as sections only once; what a mapping for one core does to the others is in `Mmu.OthersKeptIff`.
- Mmu.Boot: the contents of each core's own table for the last section are a parameter; memory is mapped section by section, where the code also uses supersections.
- OSTasks.IdleTaskYield: takes heads and returns heads, where the code updates fields of the workspace; saving and restoring of registers is left out; `RunningFlags` has the flags that go with it.
- clear_memory_region and walk_global_tree: an unaligned start wraps within the section, and the results have mixed units.
- change_word_if_equal: a compare-and-swap is one step; the exclusive load and store under it are not modelled.
- TaskOpEndTask: the task is kept as ended; releasing what belongs to it is not written in the code either.
- System heap, application memory maps, slots, the Legacy and Modules subsystems (but for RectCopy), devices, logging, boot code and assembler: input and output, or code that is not part of this model.
