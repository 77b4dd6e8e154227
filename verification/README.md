# NachOS, modelled and verified

A Dafny model of the kernel, the file system and the machine simulator of
`proyectos/NachOSx64/code`, with proofs about all their runs. The tree `proyectos/vm` repeats
most of these files and is not modelled separately.

- `threads/`: semaphores, locks and condition variables as interleaved steps, the dining
  philosophers' monitor, the blocking queue, the synchronous disk, the linked list, and the thread
  and scheduler state machine.
- `machine/`: the interrupt simulator, the timing of the disk, address translation, the MIPS step
  function with delayed loads and traps, the instruction set a program sees of it, and
  double-length multiplication.
- `userprog/`: the packed bitmap and address spaces over the frame map.
- `filesys/`: raw sectors, file headers, open files, the directory, and the file system, whose map
  and directory are files on the disk they describe.

Each component has two layers. A specification on values (`Step`, `Do`, `Check`, `OneInstruction`,
`Volumes.Create` and so on) carries the theorems over runs. A class with the fields of the C++ class
updates them in place, and each of its methods is proved to do what the specification says. What
the specifications amount to is stated without them: by the calls a schedule names, by the fields
before and after, by the instruction word and the bytes of memory.

The protocols are split where the kernel can switch threads: where a thread sleeps, and where
`SetLevel` turns interrupts back on. A schedule may name any thread at every such point, so the
theorems hold for every order in which the ready list and the timer could run them.

In the file system the specification is `Volumes`: sectors in use and files by directory slot.
`FileSystems.VolumeOf` reads such a volume off the bytes of a disk, through the headers in sectors
0 and 1, and `Create`, `Remove` and formatting are proved on those bytes.

Preconditions the source asserts: an interrupt is scheduled a positive time ahead, a frame is free
for every page of a new address space, bit numbers are in range. Preconditions it only relies on:
file sizes are between 0 and 3840, and positions in a file are not negative. The disk holds 1024
sectors of 128 bytes.

Results that are not what the code's authors may expect:

- `Condition::Broadcast` by a thread that does not own the lock never ends while somebody waits
  (`Synch.BroadcastEndsIff`).
- `Lock::Release` never checks its caller. It keeps mutual exclusion if and only if the caller is
  inside; any other thread that calls it lets two in (`Synch.ReleaseKeepsExclusionIff`,
  `Synch.OutsiderLetsTwoIn`).
- A finished thread is deleted if and only if a switch to a thread that has run before comes before
  another thread finishes; otherwise it is forgotten (`Scheduler.FinishedIsDeletedIff`,
  `Scheduler.FinishedThreadCanLeak`).
- `Thread::Fork` of a thread forked before puts it in two places at once
  (`Scheduler.ForkKeepsInvIff`).
- A trapped store whose source register is the target of a pending load is restarted with the value
  loaded, not with the one it would have stored (`Mips.StoreOfTargetRestartsIff`).
- `OR` puts rs into rd whatever rt holds, and `SRL` and `SRLV` copy the sign down like `SRA`
  (`InstructionSet.ComputationTakesEffect`).
- `AddrSpace` skips as many pages of the data as the code has, in memory and in the file both, and
  stops when the page number reaches the page count of the data (`AddressSpaces.SegmentsAreWhere`).

`dafny verify dfyconfig.toml` checks everything.

## Model

| member | source | states |
|---|---|---|
| Synch.SemaphoreCounting | proyectos/NachOSx64/code/threads/synch.cc:64-101 | in every run of loop tests of P and of V by any number of threads, value = initial + V's - completed P's, it is never negative, and while threads sleep on the queue the value is at most the number of threads woken but not yet resumed |
| Synch.WokenInOrder | proyectos/NachOSx64/code/threads/synch.cc:64-98 | in every run threads are woken in the order they went to sleep |
| Synch.TestKeepsInv | proyectos/NachOSx64/code/threads/synch.cc:64-78 | one loop test of P keeps the counting invariant, whether it consumes the value or queues the caller |
| Synch.VeeKeepsInv | proyectos/NachOSx64/code/threads/synch.cc:87-101 | V keeps the counting invariant: a wake-up always comes with an increment |
| Synch.Semaphore.V | proyectos/NachOSx64/code/threads/synch.cc:87-101 | wakes the head of the queue, if any, and increments |
| Synch.Semaphore.P | proyectos/NachOSx64/code/threads/synch.cc:64-78 | with any schedule of the other threads: every loop test of the caller but the last found the value zero, the call returns only after a test that consumed a unit, and the semaphore is left as the whole interleaved run says |
| Synch.Semaphore.WaitAsleep | proyectos/NachOSx64/code/threads/synch.cc:64-78 | what the other threads do while the caller sleeps inside P, until one of them wakes it |
| Synch.HoldersPlusValueIsOne | proyectos/NachOSx64/code/threads/synch.cc:138-147 | in every run of Acquire and Release where only threads inside release: threads inside + value = 1, and a non-null owner is inside, although owner is set one step after P returns |
| Synch.AcquireTestKeepsInv | proyectos/NachOSx64/code/threads/synch.cc:138-141 | a loop test of Acquire keeps mutual exclusion |
| Synch.ReleaseKeepsExclusionIff | proyectos/NachOSx64/code/threads/synch.cc:144-147 | Release never checks its caller: it keeps mutual exclusion if and only if the caller is inside; otherwise threads inside + value becomes two, whoever holds the lock |
| Synch.OutsiderLetsTwoIn | proyectos/NachOSx64/code/threads/synch.cc:138-147 | and there is a run in which that happens: one thread acquires, another releases and acquires, and both are inside |
| Synch.FreeLockHasTaker | proyectos/NachOSx64/code/threads/synch.cc:64-101 | with the lock free and threads queued, somebody already woken is coming for it |
| Synch.BroadcastWakesAll | proyectos/NachOSx64/code/threads/synch.cc:195-200 | Broadcast by the owner makes every waiter ready, in the order they came |
| Synch.BroadcastEndsIff | proyectos/NachOSx64/code/threads/synch.cc:182-200 | the loop of Broadcast ends if and only if the caller owns the lock or nobody waits, because Signal by anybody else does nothing |
| Synch.Condition.SignalOne | proyectos/NachOSx64/code/threads/synch.cc:182-192 | Signal: wakes the first waiter if the caller owns the lock, otherwise changes nothing |
| Synch.Condition.Broadcast | proyectos/NachOSx64/code/threads/synch.cc:195-200 | any number of rounds of the loop, for any caller: the owner empties the queue onto the ready list in order within as many rounds as there are waiters; for anybody else nothing changes and the loop has not ended unless nobody waits |
| DiningPh.NeighboursNeverEatTogether | proyectos/NachOSx64/code/threads/diningph.cc:19-56 | for every schedule of the five threads, preempted at any switch point, no two neighbours are Eating |
| DiningPh.PickupReturnsEating | proyectos/NachOSx64/code/threads/diningph.cc:19-31 | pickup returns only with the caller Eating, although it waits with if and not with while |
| DiningPh.MutualExclusion | proyectos/NachOSx64/code/threads/diningph.cc:19-44 | at most one thread is between the P and the V of the monitor lock |
| DiningPh.HungryMeansBlocked | proyectos/NachOSx64/code/threads/diningph.cc:33-56 | with the lock free, every Hungry philosopher is asleep on its own condition beside an Eating neighbour: no wake-up is lost |
| DiningPh.NeverDeadlocked | proyectos/NachOSx64/code/threads/diningph.cc:19-56 | in every reachable state in which somebody is Hungry or inside a call, some thread inside one is awake and its step moves it; a thread outside can always begin |
| DiningPh.RunnableMoves | proyectos/NachOSx64/code/threads/diningph.cc:19-56 | every step of a thread that is awake takes it somewhere else |
| DiningPh.StepKeepsInv | proyectos/NachOSx64/code/threads/diningph.cc:19-56 | every step of every thread keeps the invariant the theorems above follow from |
| DiningPh.RunKeepsInv | proyectos/NachOSx64/code/threads/diningph.cc:3-56 | hence every run from the constructor does |
| DiningPh.DiningPhilosophers.Resume | proyectos/NachOSx64/code/threads/diningph.cc:19-56 | the monitor object, its fields updated in place, does exactly the step of the protocol from one switch point to the next |
| DiningPh.DiningPhilosophers.TestPhilosopher | proyectos/NachOSx64/code/threads/diningph.cc:46-56 | test(): feeds a Hungry philosopher without Eating neighbours and signals its condition |
| DiningPh.DiningPhilosophers.WaitIfHungry | proyectos/NachOSx64/code/threads/diningph.cc:24-30 | the tail of pickup: waits if still Hungry, otherwise releases the lock |
| SynchList.ListIsAppendsLessRemovals | proyectos/NachOSx64/code/threads/synchlist.h:80-111 | for any number of producers and consumers, by the calls named in the schedule: the list holds the items of the Appends past the lock less as many from the front as Removes have returned, and the Removes took those, in order |
| SynchList.RunStaysInCall | proyectos/NachOSx64/code/threads/synchlist.h:80-111 | a thread goes through the program points of the call it made and of no other |
| SynchList.AwakeMoves | proyectos/NachOSx64/code/threads/synchlist.h:80-111 | every step of a thread that is awake takes it somewhere else |
| SynchList.NoLostWakeup | proyectos/NachOSx64/code/threads/synchlist.h:80-111 | while a thread sleeps on listEmpty, the list is no longer than the number of threads signalled and on their way to re-test it |
| SynchList.MutualExclusion | proyectos/NachOSx64/code/threads/synchlist.h:80-111 | one thread at a time is inside Append or Remove |
| SynchList.QuietMeansEmpty | proyectos/NachOSx64/code/threads/synchlist.h:80-111 | if nothing is left to run, the lock is free and every thread still inside a call is a Remove facing an empty list |
| SynchList.StepKeepsInv | proyectos/NachOSx64/code/threads/synchlist.h:80-111 | every step keeps the invariant; a Remove never takes from an empty list |
| SynchList.RunKeepsInv | proyectos/NachOSx64/code/threads/synchlist.h:50-111 | hence every run does |
| SynchList.SynchronizedList.Resume | proyectos/NachOSx64/code/threads/synchlist.h:80-111 | the object, updated in place, does exactly the step of the protocol: an Append past the lock puts its item at the end, a Remove that finds an item takes and returns the first, and nothing else touches the list |
| SynchDisk.OneRequestInFlight | proyectos/NachOSx64/code/filesys/synchdisk.cc:72-109 | for any threads calling ReadSector and WriteSector, and any arrival of interrupts, at most one request is in flight and the ASSERT that the disk is idle never fails |
| SynchDisk.ReturnsAfterOwnInterrupt | proyectos/NachOSx64/code/filesys/synchdisk.cc:72-109 | a call about to return has had the interrupt of the very request it issued |
| SynchDisk.WaitsForOwnInterrupt | proyectos/NachOSx64/code/filesys/synchdisk.cc:72-96 | a call whose interrupt has not come is asleep on the semaphore |
| SynchDisk.QuietMeansDone | proyectos/NachOSx64/code/filesys/synchdisk.cc:72-109 | when nobody awake is inside a call and the disk is idle, nobody is inside a call |
| SynchDisk.OneRequestACall | proyectos/NachOSx64/code/filesys/synchdisk.cc:72-96 | each call past the lock issues one request, in the order of the calls, and nobody else does |
| SynchDisk.InterruptWakesIssuer | proyectos/NachOSx64/code/filesys/synchdisk.cc:105-109 | the interrupt of a request wakes the thread that issued it |
| SynchDisk.AwakeMoves | proyectos/NachOSx64/code/filesys/synchdisk.cc:72-96 | every step of a thread that is awake takes it somewhere else |
| SynchDisk.StepKeepsInv | proyectos/NachOSx64/code/filesys/synchdisk.cc:72-96 | every step of a thread keeps the invariant |
| SynchDisk.InterruptKeepsInv | proyectos/NachOSx64/code/filesys/synchdisk.cc:105-109 | so does the disk interrupt |
| SynchDisk.SynchronousDisk.IssueRequest | proyectos/NachOSx64/code/machine/disk.cc:115-153 | ReadRequest and WriteRequest: mark the disk active, or fail the ASSERT |
| SynchDisk.SynchronousDisk.HandleInterrupt | proyectos/NachOSx64/code/machine/disk.cc:161-166 | the interrupt: the disk is idle again and RequestDone does its V |
| SynchDisk.SynchronousDisk.ResumeThread | proyectos/NachOSx64/code/filesys/synchdisk.cc:72-96 | the object, updated in place, does exactly the step of the protocol |
| LinkedList.InsertSorts | proyectos/NachOSx64/code/threads/list.h:230-258 | SortedInsert into a sorted list leaves it sorted, adds exactly the new entry, and puts it after all entries with an equal key |
| LinkedList.HeadIsLeast | proyectos/NachOSx64/code/threads/list.h:270-289 | the entry SortedRemove takes from a sorted list has a least key, and what stays is sorted and the rest of the multiset |
| LinkedList.PrefixIs | proyectos/NachOSx64/code/threads/list.h:241-256 | the place the search loop stops at is the only one that satisfies its exit condition |
| LinkedList.List.SortedInsert | proyectos/NachOSx64/code/threads/list.h:230-258 | the linked cells, relinked in place, hold the specified insertion; the chain stays acyclic with last its final cell |
| LinkedList.List.SortedRemove | proyectos/NachOSx64/code/threads/list.h:270-289 | unlinks the first cell and returns its item and key, or nothing |
| LinkedList.List.Append | proyectos/NachOSx64/code/threads/list.h:126-138 | adds at the end |
| LinkedList.List.Prepend | proyectos/NachOSx64/code/threads/list.h:153-165 | adds at the front |
| LinkedList.List.Remove | proyectos/NachOSx64/code/threads/list.h:176-180 | removes the first item, or returns nothing |
| Scheduler.EveryThreadHasOnePlace | proyectos/NachOSx64/code/threads/thread.cc:89-232 | after any run of kernel operations every live thread is in exactly one place (current, once on the ready list, on one wait queue, finished, or not yet forked) and its status names it |
| Scheduler.DeletedIsGone | proyectos/NachOSx64/code/threads/scheduler.cc:90-142 | a deleted thread is never current, ready or queued |
| Scheduler.DispatchIsFifo | proyectos/NachOSx64/code/threads/scheduler.cc:53-74 | the thread at position k of the ready list is the (k+1)-th one dispatched from then on |
| Scheduler.YieldsDispatch | proyectos/NachOSx64/code/threads/thread.cc:179-195 | from any state reached, k + 1 Yields give the processor to the thread at position k of the ready list |
| Scheduler.YieldSwitches | proyectos/NachOSx64/code/threads/thread.cc:179-195 | Yield runs the head of the ready list and puts the caller, now Ready, at its end; with an empty list nothing changes |
| Scheduler.SleepDispatches | proyectos/NachOSx64/code/threads/thread.cc:216-232 | Sleep from a wait queue: the caller is its last and Blocked; the head of the ready list runs, or else the thread the first effective wake-up brings, or else the machine halts |
| Scheduler.FinishDispatches | proyectos/NachOSx64/code/threads/thread.cc:148-164 | Finish switches in the same way, and the caller is deleted or named to be |
| Scheduler.WakeUpReadies | proyectos/NachOSx64/code/threads/synch.cc:87-98 | a wake-up takes the head of the wait queue to the end of the ready list |
| Scheduler.FinishedIsDeletedIff | proyectos/NachOSx64/code/threads/scheduler.cc:90-142 | over any run from its Finish on, a thread is deleted if and only if its own switch goes to a thread that has run before, or a later switch does before another thread finishes |
| Scheduler.NamedIsDeletedIff | proyectos/NachOSx64/code/threads/scheduler.cc:90-142 | the thread threadToBeDestroyed names is deleted in a run if and only if a switch to a thread that has run before comes before the next Finish |
| Scheduler.OverwrittenIsNeverDeleted | proyectos/NachOSx64/code/threads/thread.cc:148-164 | a finished thread that threadToBeDestroyed no longer names is never deleted |
| Scheduler.FinishedThreadCanLeak | proyectos/NachOSx64/code/threads/thread.cc:148-164 | and there is a run in which that happens: two threads finishing while only new threads are ready |
| Scheduler.DoKeepsInv | proyectos/NachOSx64/code/threads/thread.cc:89-232 | every operation keeps the placement invariant |
| Scheduler.RunFromKeepsInv | proyectos/NachOSx64/code/threads/thread.cc:89-232 | hence every run does |
| Scheduler.Threads.SwitchTo | proyectos/NachOSx64/code/threads/scheduler.cc:90-142 | Scheduler::Run in place: the next thread runs and, unless it is new, buries the finished one |
| Scheduler.Threads.FindNextToRun | proyectos/NachOSx64/code/threads/scheduler.cc:70-74 | takes the head of the ready list |
| Scheduler.Threads.MakeReady | proyectos/NachOSx64/code/threads/scheduler.cc:53-60 | ReadyToRun |
| Scheduler.Threads.ForkThread | proyectos/NachOSx64/code/threads/thread.cc:89-106 | Fork puts the thread on the ready list to start afresh, whatever it was doing |
| Scheduler.ForkKeepsInvIff | proyectos/NachOSx64/code/threads/thread.cc:89-106 | Fork does not check its thread: every thread keeps its one place if and only if this one was never forked before |
| Scheduler.Threads.YieldThread | proyectos/NachOSx64/code/threads/thread.cc:179-195 | the object does so: the next thread is found before the caller is put on the list |
| Scheduler.Threads.SleepThread | proyectos/NachOSx64/code/threads/thread.cc:216-232 | Sleep: interrupts run while nothing is ready, then a switch, or the machine halts |
| Scheduler.Threads.FinishThread | proyectos/NachOSx64/code/threads/thread.cc:148-164 | Finish: names the thread to be destroyed and sleeps for good |
| Interrupts.RunIsSound | proyectos/NachOSx64/code/machine/interrupt.cc:150-336 | in every run, with every handler call doing what it likes, the pending list is sorted with nothing before the last interrupt fired, every interrupt scheduled is fired or pending, and total = idle + system + user ticks |
| Interrupts.InterruptsAreTransparent | proyectos/NachOSx64/code/machine/interrupt.cc:323-333 | whatever interrupts happen between two instructions of the user program, the next one does the same, unless it touches the target of the pending load |
| Interrupts.InterruptsOnlyFlush | proyectos/NachOSx64/code/machine/interrupt.cc:323-333 | all the registers show of any number of interrupts is the pending load finished |
| Interrupts.FlushFinishesLoad | proyectos/NachOSx64/code/machine/mipssim.cc:575-582 | finished means: its target has the value, every other register is as it was, and nothing is pending |
| Interrupts.FiredInOrderAndOnce | proyectos/NachOSx64/code/machine/interrupt.cc:264-336 | interrupts are called in order of their due times over the whole run, each at most as often as it was scheduled |
| Interrupts.NeverEarly | proyectos/NachOSx64/code/machine/interrupt.cc:290-336 | the clock never runs back and nothing is called before its time |
| Interrupts.CheckIsSound | proyectos/NachOSx64/code/machine/interrupt.cc:290-336 | CheckIfDue keeps all that in every branch; without advanceClock the clock stands still and a firing leaves one interrupt fewer due |
| Interrupts.FireIsSound | proyectos/NachOSx64/code/machine/interrupt.cc:325-336 | calling a handler leaves one fewer due whatever it schedules, because delays are at least one tick |
| Interrupts.AllScheduled | proyectos/NachOSx64/code/machine/interrupt.cc:264-277 | whatever a handler asks for is scheduled, in turn, each for the current time plus its delay |
| Interrupts.UnfiredMeansNothingDue | proyectos/NachOSx64/code/machine/interrupt.cc:290-323 | CheckIfDue returns false only if nothing is due, or all there is is the timer of an idle machine |
| Interrupts.Interrupt.CheckIfDue | proyectos/NachOSx64/code/machine/interrupt.cc:290-336 | the object, on the linked list and with the machine's pending load finished before a handler is called, does exactly what the specification says, taking the head off and putting it back |
| Interrupts.Interrupt.FireAllDue | proyectos/NachOSx64/code/machine/interrupt.cc:166-169 | the loop `while (CheckIfDue(FALSE))` ends, by the number of interrupts due, with nothing due; what the handlers asked for is scheduled, and a switch is noted exactly if one of them wanted it |
| Interrupts.Interrupt.OneTick | proyectos/NachOSx64/code/machine/interrupt.cc:150-178 | advances the clock by 10 ticks in the kernel and 1 in a user program, fires everything due and nothing else, and gives up the processor if and only if a handler asked for it, now or before |
| Interrupts.Interrupt.SetLevel | proyectos/NachOSx64/code/machine/interrupt.cc:114-127 | turning interrupts on is a tick; anything else changes the level only |
| Interrupts.Interrupt.Idle | proyectos/NachOSx64/code/machine/interrupt.cc:210-230 | advances the clock exactly to the next interrupt, fires it first and then all that is due, or halts if and only if nothing is pending but perhaps the timer |
| Interrupts.Interrupt.ScheduleInterrupt | proyectos/NachOSx64/code/machine/interrupt.cc:264-277 | inserts at the current time plus a positive delay |
| DiskTiming.BufferHoldsSector | proyectos/NachOSx64/code/machine/disk.cc:232-271 | after any sequence of requests a read is served from the track buffer only if the sector passed whole under the head after the head settled on the track, and by completion |
| DiskTiming.BufferedIff | proyectos/NachOSx64/code/machine/disk.cc:232-253 | the shortcut is taken if and only if such a pass exists between the start of loading and the next sector boundary |
| DiskTiming.UnbufferedEndsAfterSector | proyectos/NachOSx64/code/machine/disk.cc:179-253 | otherwise the request ends on the boundary after the first pass of the sector since the seek ended |
| DiskTiming.LatencyIs | proyectos/NachOSx64/code/machine/disk.cc:232-253 | a read of a sector that has passed whole under the head since the buffer began to load takes 500 ticks; any other request ends with the first pass of the sector after the seek |
| DiskTiming.SeekTimeIs | proyectos/NachOSx64/code/machine/disk.cc:179-186 | a seek takes 500 ticks for every track of 32 sectors crossed |
| DiskTiming.LatencyAtLeastOneSector | proyectos/NachOSx64/code/machine/disk.cc:232-253 | latency is at least RotationTime |
| DiskTiming.ModuloDiffIsNext | proyectos/NachOSx64/code/machine/disk.cc:202-208 | ModuloDiff gives the first slot at or after one with the sector under the head |
| DiskTiming.SeekEndsOnBoundary | proyectos/NachOSx64/code/machine/disk.cc:179-193 | a seek plus the rotational wait it reports ends on a sector boundary, the first one |
| DiskTiming.RunKeepsInv | proyectos/NachOSx64/code/machine/disk.cc:115-166 | bufferInit stays on a sector boundary, the first one after the head came to rest on its track |
| DiskTiming.Disk.UpdateLast | proyectos/NachOSx64/code/machine/disk.cc:261-271 | resets bufferInit only when the head moves |
| DiskTiming.Disk.StartRequest | proyectos/NachOSx64/code/machine/disk.cc:115-153 | ReadRequest and WriteRequest: the completion time in these terms, and where and since when the head is |
| Mult.Mult | proyectos/NachOSx64/code/machine/mipssim.cc:635-692 | for all words, signed or unsigned, hi:lo is the exact 64-bit product: wrap-around negation, arithmetic shift and early exit included |
| Mult.ShiftAndAdd | proyectos/NachOSx64/code/machine/mipssim.cc:657-678 | the loop computes the product of the two as unsigned words |
| Mult.ReadBack | proyectos/NachOSx64/code/machine/mipssim.cc:680-691 | two unsigned words congruent to the product hold it exactly when read as a double word |
| Mult.Signs | proyectos/NachOSx64/code/machine/mipssim.cc:643-655 | the product of the magnitudes with the sign applied afterwards is the product, also for the most negative word |
| Mult.Complement | proyectos/NachOSx64/code/machine/mipssim.cc:682-688 | the negation of the pair is two's complement of the double word |
| Mips.TrapsArePrecise | proyectos/NachOSx64/code/machine/machine.cc:100-111 | a trap leaves PC, NextPC, HI, LO, memory and every register but the pending load's target and its bookkeeping as they were |
| InstructionSet.TrapsExactly | proyectos/NachOSx64/code/machine/mipssim.cc:93-582 | for every instruction word: exactly when it traps, with which exception and what in BadVAddr, and when an ASSERT fails |
| Mips.RestartIsExact | proyectos/NachOSx64/code/machine/mipssim.cc:93-582 | for every instruction: after a trap, with memory repaired in any way, the step taken is the one the untrapped machine would take, BadVAddr aside, unless the instruction touches the pending load's target |
| Mips.FlushIsInvisible | proyectos/NachOSx64/code/machine/mipssim.cc:575-582 | finishing a pending load early cannot be seen by an instruction that does not touch its target |
| Mips.StoreOfTargetRestartsIff | proyectos/NachOSx64/code/machine/mipssim.cc:93-582 | the proviso is needed: SB, SH, SW, SWL or SWR of the pending target restarts exactly if and only if the load leaves the part of the register that is stored unchanged |
| InstructionSet.LoadArrives | proyectos/NachOSx64/code/machine/mipssim.cc:231-343 | after a load and any further step, trapped or not, rt holds the bytes at rs + extra, sign- or zero-extended, or merged by LWR |
| InstructionSet.LoadTakesEffect | proyectos/NachOSx64/code/machine/mipssim.cc:231-343 | the load itself changes no register but the pending target of the load before it, and moves the program counters on by one instruction |
| InstructionSet.StoreTakesEffect | proyectos/NachOSx64/code/machine/mipssim.cc:383-533 | after a store the bytes at rs + extra are those of rt, and no other byte and no register has changed |
| InstructionSet.ComputationTakesEffect | proyectos/NachOSx64/code/machine/mipssim.cc:124-562 | every other instruction gives its destination, HI, LO and the next program counter their values in exact numbers and bits, and changes nothing else |
| InstructionSet.PendingArrives | proyectos/NachOSx64/code/machine/mipssim.cc:565-582 | a pending load is done by the next step, whatever it is |
| Bits.LogicalBits | proyectos/NachOSx64/code/machine/mipssim.cc:153-160 | the logical instructions work bit by bit |
| Bits.LeftShiftBits | proyectos/NachOSx64/code/machine/mipssim.cc:395-403 | a left shift moves bits up and brings in zeros |
| Bits.RightShiftBits | proyectos/NachOSx64/code/machine/mipssim.cc:436-456 | a right shift moves bits down and copies the sign, for SRL and SRLV too |
| Encoding.AssembledDecoded | proyectos/NachOSx64/code/machine/mipssim.cc:589-628 | every word that is an instruction is the word an assembler makes of what Decode reads in it |
| Encoding.DecodedAssembled | proyectos/NachOSx64/code/machine/mipssim.cc:589-628 | every instruction has a word, and Decode reads it off |
| Encoding.IllegalIff | proyectos/NachOSx64/code/machine/mipssim.h:117-151 | a word is illegal or unimplemented if and only if no instruction assembles to it |
| Mips.OverflowIff | proyectos/NachOSx64/code/machine/mipssim.cc:127-146 | ADD, ADDI and SUB trap if and only if the exact result does not fit a word, and otherwise give it |
| Mips.MultiplyIsExact | proyectos/NachOSx64/code/machine/mipssim.cc:361-370 | MULT and MULTU leave the exact product in HI:LO |
| Mips.DivideIsExact | proyectos/NachOSx64/code/machine/mipssim.cc:195-204 | DIV satisfies dividend = divisor * LO + HI with a smaller remainder of the dividend's sign, except for the most negative word over -1 |
| Mips.StepKeepsCpuOk | proyectos/NachOSx64/code/machine/mipssim.cc:93-582 | register 0 stays zero and a pending load names a general register |
| MachineObject.Machine.Step | proyectos/NachOSx64/code/machine/mipssim.cc:93-572 | the machine object, its registers and memory arrays updated in place, does exactly the specified instruction or trap |
| MachineObject.Machine.RaiseException | proyectos/NachOSx64/code/machine/machine.cc:100-111 | records BadVAddr and finishes the pending load |
| MachineObject.Machine.DoDelayedLoad | proyectos/NachOSx64/code/machine/mipssim.cc:575-582 | completes one pending load and records the next |
| MachineObject.Machine.ReadMemory | proyectos/NachOSx64/code/machine/translate.cc:87-127 | ReadMem in place |
| MachineObject.Machine.WriteMemory | proyectos/NachOSx64/code/machine/translate.cc:137-169 | WriteMem in place |
| MachineObject.Machine.TranslateAddress | proyectos/NachOSx64/code/machine/translate.cc:186-255 | Translate in place, use and dirty bits included |
| MachineObject.Machine.Perform | proyectos/NachOSx64/code/machine/mipssim.cc:361-370 | what an instruction computes, MULT and MULTU by the loop of Mult, is what the specification of the step names |
| Translation.StaysInPage | proyectos/NachOSx64/code/machine/translate.cc:186-255 | the final ASSERT of Translate holds: a translated access lies within one page and within memory |
| Translation.MappedTranslates | proyectos/NachOSx64/code/machine/translate.cc:186-255 | an aligned access to a page that has an entry: read-only, bad frame, or frame times 128 plus offset, with use set and dirty set by a store, and no other entry touched |
| Translation.UnmappedTraps | proyectos/NachOSx64/code/machine/translate.cc:186-255 | any other access: an address error or a page fault, and no bit touched |
| Translation.FetchIsLittleEndian | proyectos/NachOSx64/code/machine/translate.cc:87-127 | numbers lie in memory with their lowest byte first |
| Translation.StoreThenLoad | proyectos/NachOSx64/code/machine/translate.cc:87-169 | after a store the same load succeeds and gives the value modulo its size |
| Translation.FetchDeposited | proyectos/NachOSx64/code/machine/translate.cc:87-169 | little-endian bytes stored are read back |
| Translation.TranslatesAlike | proyectos/NachOSx64/code/machine/translate.cc:186-255 | use and dirty bits and memory contents play no part in translation |
| Translation.LoadTrapsOnlyIfStoreDoes | proyectos/NachOSx64/code/machine/translate.cc:186-255 | where a store succeeds a load does too, at the same place |
| AddressSpaces.FramesAreOwned | proyectos/NachOSx64/code/userprog/addrspace.cc:60-94 | after any run of creations, destructions, loads and stores, live spaces have disjoint frames and the frames marked are exactly theirs |
| AddressSpaces.NewSpace | proyectos/NachOSx64/code/userprog/addrspace.cc:60-135 | what the constructor does to the frame map and to memory is a creation those runs allow, and it keeps their invariant |
| AddressSpaces.DeleteSpace | proyectos/NachOSx64/code/userprog/addrspace.cc:181-189 | what the destructor does is a destruction those runs allow |
| AddressSpaces.RunIsIsolated | proyectos/NachOSx64/code/userprog/addrspace.cc:60-189 | while other spaces are created, loaded from their executables, destroyed, and run, the memory a space sees does not change |
| AddressSpaces.StoreIsIsolated | proyectos/NachOSx64/code/machine/translate.cc:137-255 | a store traps and changes nothing, or overwrites its bytes of the flat memory of its own space and of no other |
| AddressSpaces.LoadIsFetch | proyectos/NachOSx64/code/machine/translate.cc:87-127 | a load takes its value from the flat memory of its space, and traps if and only if misaligned or past the end |
| AddressSpaces.LoadsDoNotSeeForeignStores | proyectos/NachOSx64/code/machine/translate.cc:87-255 | a load through one page table gives the same before and after a store through another |
| AddressSpaces.ApplyKeepsInv | proyectos/NachOSx64/code/userprog/addrspace.cc:60-189 | every operation keeps frame ownership |
| AddressSpaces.AddrSpace.constructor | proyectos/NachOSx64/code/userprog/addrspace.cc:60-135 | the page table built has distinct frames, all of them clear before and marked now, and marks nothing else; memory is as the two loading loops leave it |
| AddressSpaces.RoomForProgram | proyectos/NachOSx64/code/userprog/addrspace.cc:70-77 | the pages hold the three segments and a stack of 1024 bytes, with less than a page to spare |
| AddressSpaces.SegmentsAreWhere | proyectos/NachOSx64/code/userprog/addrspace.cc:96-133 | where in the space each byte of the executable ends up: a code page holds its part of the code, a later page below the page count of the data what the file has that many pages into the data, and every other byte what it held |
| AddressSpaces.LoadSegmentsOutside | proyectos/NachOSx64/code/userprog/addrspace.cc:96-133 | loading writes in the frames of the space only |
| AddressSpaces.AddrSpace.Destroy | proyectos/NachOSx64/code/userprog/addrspace.cc:181-189 | clears exactly the space's frames |
| BitMaps.BitMap.Mark | proyectos/NachOSx64/code/userprog/bitmap.cc:46-51 | in the packed words, sets one bit and no other |
| BitMaps.BitMap.Clear | proyectos/NachOSx64/code/userprog/bitmap.cc:60-65 | clears one bit and no other |
| BitMaps.BitMap.Test | proyectos/NachOSx64/code/userprog/bitmap.cc:74-83 | tells if the bit is set |
| BitMaps.BitMap.Find | proyectos/NachOSx64/code/userprog/bitmap.cc:94-103 | finds and sets the first clear bit, or says there is none |
| BitMaps.BitMap.NumClear | proyectos/NachOSx64/code/userprog/bitmap.cc:111-119 | counts the clear bits |
| BitMaps.BitMap.constructor | proyectos/NachOSx64/code/userprog/bitmap.cc:20-27 | starts with all bits clear, whatever was in memory |
| BitMaps.OneBitSet | proyectos/NachOSx64/code/userprog/bitmap.cc:46-51 | or-ing a mask into a word sets that bit and leaves the others |
| BitMaps.OneBitCleared | proyectos/NachOSx64/code/userprog/bitmap.cc:60-65 | and-ing with the complement of a mask clears that bit and leaves the others |
| FreeMaps.FetchFrom | proyectos/NachOSx64/code/userprog/bitmap.cc:148-152 | reads the map back from its file |
| FreeMaps.WriteBack | proyectos/NachOSx64/code/userprog/bitmap.cc:161-165 | after it the bytes of the map file decode to the map, and nothing else on the disk has changed |
| Storage.WordsRoundTrip | proyectos/NachOSx64/code/userprog/bitmap.cc:148-165 | the words of the map survive the trip through bytes |
| Storage.IntIsLittleEndian | proyectos/NachOSx64/code/filesys/filehdr.cc:77-94 | ints lie on the disk with their lowest byte first |
| Storage.WordIsLittleEndian | proyectos/NachOSx64/code/userprog/bitmap.cc:148-165 | and so do the words of the map |
| FileHeaders.FileHeader.Allocate | proyectos/NachOSx64/code/filesys/filehdr.cc:41-54 | succeeds if and only if enough sectors are clear; then takes the lowest ones in order, otherwise leaves the map as it was |
| FileHeaders.FileHeader.Deallocate | proyectos/NachOSx64/code/filesys/filehdr.cc:61-68 | clears exactly the file's sectors; the ASSERT that each is marked is its precondition |
| FileHeaders.ClearsAreFree | proyectos/NachOSx64/code/filesys/filehdr.cc:41-54 | the sectors Find hands out one after another are distinct and were clear |
| FileHeaders.HeaderRoundTrip | proyectos/NachOSx64/code/filesys/filehdr.cc:77-94 | a header survives the trip through its sector |
| FileHeaders.HeaderLayout | proyectos/NachOSx64/code/filesys/filehdr.cc:77-94 | where in its sector each int of a header is |
| FileHeaders.ContentsAt | proyectos/NachOSx64/code/filesys/filehdr.cc:106-110 | byte j of a file is in the sector the header names at j / 128 |
| FileHeaders.ContentsDependOnData | proyectos/NachOSx64/code/filesys/filehdr.cc:106-110 | a file's bytes depend on its own sectors only |
| FileHeaders.FileHeader.FetchFrom | proyectos/NachOSx64/code/filesys/filehdr.cc:77-81 | reads the header in a sector |
| FileHeaders.FileHeader.WriteBack | proyectos/NachOSx64/code/filesys/filehdr.cc:90-94 | writes it to one sector |
| OpenFiles.OpenFile.ReadAt | proyectos/NachOSx64/code/filesys/openfile.cc:113-141 | for any position and length: transfers the slice of the flat file clipped at its end, into the given place of the buffer and nowhere else |
| OpenFiles.OpenFile.WriteAt | proyectos/NachOSx64/code/filesys/openfile.cc:143-183 | for any position and length, through unaligned first and last sectors: the flat file is overwritten there, clipped at its end, and no sector of another file changes |
| OpenFiles.ClipIsLargest | proyectos/NachOSx64/code/filesys/openfile.cc:119-122 | a request transfers as much of what was asked for as the file has |
| OpenFiles.CopiedIsReady | proyectos/NachOSx64/code/filesys/openfile.cc:164-175 | the conditions under which the first and last sectors are read in are enough: the buffer then holds the overwritten file |
| OpenFiles.StoredIsOverwritten | proyectos/NachOSx64/code/filesys/openfile.cc:177-180 | writing those sectors back makes the flat file read as overwritten |
| OpenFiles.LoadedIsSlice | proyectos/NachOSx64/code/filesys/openfile.cc:127-138 | the copied part of the sectors read is the slice |
| OpenFiles.OpenFile.PartialSectors | proyectos/NachOSx64/code/filesys/openfile.cc:162-172 | the first and the last sector are in the buffer if they are only partly modified |
| OpenFiles.OpenFile.Read | proyectos/NachOSx64/code/filesys/openfile.cc:71-77 | reads at the seek position and advances it by what was transferred |
| OpenFiles.OpenFile.Write | proyectos/NachOSx64/code/filesys/openfile.cc:79-85 | writes at the seek position and advances it by what was transferred |
| OpenFiles.ReadBack | proyectos/NachOSx64/code/filesys/openfile.cc:113-183 | what was written is read back |
| Directories.ComparesKeys | proyectos/NachOSx64/code/filesys/directory.cc:90-98 | strncmp against a stored name succeeds if and only if the nine-character keys are equal |
| Directories.NamesCollideIff | proyectos/NachOSx64/code/filesys/directory.cc:90-98 | two names are the same file if and only if they agree in their first nine characters |
| Directories.TableRoundTrip | proyectos/NachOSx64/code/filesys/directory.cc:63-80 | the table survives the trip through the directory file |
| Directories.TableLayout | proyectos/NachOSx64/code/filesys/directory.cc:63-80 | where in the directory file each entry is, and in it the flag, the sector and the name |
| Directories.Directory.FindIndex | proyectos/NachOSx64/code/filesys/directory.cc:90-98 | the first entry in use with the name, or -1 |
| Directories.Directory.Find | proyectos/NachOSx64/code/filesys/directory.cc:108-115 | the header sector the name stands for, or -1 |
| Directories.Directory.Add | proyectos/NachOSx64/code/filesys/directory.cc:129-144 | succeeds if and only if the name is new and an entry is free; then fills the first free one, otherwise changes nothing |
| Directories.Directory.Remove | proyectos/NachOSx64/code/filesys/directory.cc:153-162 | frees the entry of the name, or changes nothing |
| Directories.Directory.WriteBack | proyectos/NachOSx64/code/filesys/directory.cc:76-80 | after it the bytes of the directory file decode to the table |
| Volumes.MapIsExact | proyectos/NachOSx64/code/filesys/filesys.cc:80-288 | after formatting and any run of Create and Remove the map marks exactly the two system headers, the three sectors of the system files and each file's header and data sectors; no sector has two owners |
| Volumes.RunKeepsInv | proyectos/NachOSx64/code/filesys/filesys.cc:174-288 | every run keeps the ownership invariant |
| Volumes.CreateKeepsInv | proyectos/NachOSx64/code/filesys/filesys.cc:174-215 | Create does |
| Volumes.RemoveKeepsInv | proyectos/NachOSx64/code/filesys/filesys.cc:257-288 | Remove does |
| Volumes.RemoveUndoesCreate | proyectos/NachOSx64/code/filesys/filesys.cc:174-288 | a Create that succeeds followed by Remove of the name restores the directory and the map |
| Volumes.CreateMakesFile | proyectos/NachOSx64/code/filesys/filesys.cc:174-215 | a Create makes one file of the size asked for, found under its name, in a slot that was free, on sectors that were free, the header on the lowest; or it changes nothing |
| Volumes.RemoveTakesFile | proyectos/NachOSx64/code/filesys/filesys.cc:257-288 | a Remove takes the file of the name and its sectors, and no more |
| Volumes.OthersKeepTheirFiles | proyectos/NachOSx64/code/filesys/filesys.cc:174-288 | Create and Remove leave what every other name stands for |
| Volumes.NewFileIsFree | proyectos/NachOSx64/code/filesys/filesys.cc:193-202 | the sectors a Create takes belong to nobody |
| FileSystems.FileSystem.Create | proyectos/NachOSx64/code/filesys/filesys.cc:174-215 | on the bytes of the disk: has exactly the specified effect on the volume, succeeds if and only if the name is new and everything fits, leaves every byte alone if it fails, and keeps the bytes of every file |
| FileSystems.FileSystem.Remove | proyectos/NachOSx64/code/filesys/filesys.cc:257-288 | on the bytes of the disk: has exactly the specified effect on the volume, fails if and only if there is no such file, and keeps the bytes of every other file |
| FileSystems.FileSystem.Open | proyectos/NachOSx64/code/filesys/filesys.cc:227-241 | gives a handle on the file's bytes if and only if the name is there |
| FileSystems.FileSystem.Format | proyectos/NachOSx64/code/filesys/filesys.cc:80-136 | formatting leaves a disk whose own map and directory files describe the empty volume; the ASSERTs on Allocate hold |
| FileSystems.FileSystem.Mount | proyectos/NachOSx64/code/filesys/filesys.cc:137-142 | opens a formatted disk |
| FileSystems.FileSystem.FormatAndRun | proyectos/NachOSx64/code/filesys/filesys.cc:80-288 | formatting a disk and carrying out any run of Create and Remove on its bytes leaves a disk that describes the volume of the same run, so all the theorems about volumes hold of disks |
| FileSystems.FileSystem.RunCommands | proyectos/NachOSx64/code/filesys/filesys.cc:174-288 | any run of commands on a sound disk follows the run on its volume |
| FileSystems.FileSystem.ReleaseFile | proyectos/NachOSx64/code/filesys/filesys.cc:272-279 | Deallocate's assertion holds in Remove, and the map loses exactly the file's sectors |
| FileSystems.WritesAreIsolated | proyectos/NachOSx64/code/filesys/openfile.cc:143-183 | writing the data sectors of one file changes neither map nor directory nor any header nor any other file |
| FileSystems.CreateOnDisk | proyectos/NachOSx64/code/filesys/filesys.cc:203-208 | the three write-backs of Create make the disk describe the new volume |
| FileSystems.RemoveOnDisk | proyectos/NachOSx64/code/filesys/filesys.cc:278-283 | the two write-backs of Remove make the disk describe the new volume |

## Left out

- Host and devices: `sysdep.cc`, the console, the network and the post office, the timer, signals
  and `SWITCH`/`ThreadRoot`. A context switch is the point where another thread's step may come.
- `exception.cc` and `nachosOpenFilesTable.cc`: Unix file and socket calls, and a simple table.
- `Barrier`: its last thread does one V, so it does not release the others. `Mutex` repeats `Lock`,
  and `Semaphore::Destroy` is not used by the modelled code.
- `AddrSpace(AddrSpace*)`: the child shares frames its destructor then clears, so frame ownership
  does not hold with it. The executable is the sequence of its bytes, its header decoded already;
  a wrong magic number, on which the source stops, is not modelled.
- `proyectos/vm` paging: it depends on a swap class that is not part of this model.
- The order of interrupts with equal times: putting the head back rotates them.
- Fairness: the monitor models let any thread that is awake go next, which covers first-come
  dispatch and every preemption, and so claim nothing about how soon a thread runs.
- `OpenFiles.OpenFile.ReadAt`: positions and lengths are unbounded integers, so the 32-bit sum of
  position and length does not wrap. Negative positions are excluded: the source does not check
  them and would read outside its buffer.
- `OpenFiles.OpenFile.WriteAt`: positions as for `ReadAt`. It says nothing of the bytes of the last
  sector past the end of the file. The source writes whatever its buffer held there.
- `OpenFiles.OpenFile.PartialSectors`: does not say that aligned sectors are left unread.
- `FileHeaders.FileHeader.Allocate`: sizes over 3840 are excluded, the source would write past the
  header's array, and so are negative ones.
- `FileSystems.FileSystem.Create`: sizes as for `Allocate`; the source checks neither bound.
- Handles kept open across `Remove` of their file, concurrent calls of the file system, and crashes
  between two write-backs: the source promises nothing about them.
- `Directories.Directory.WriteBack`: padding bytes of an entry are written as zeros, the source
  writes whatever memory held. The text `Print` and `List` produce is not modelled.
- `Interrupts.RunIsSound` and `DiskTiming.BufferHoldsSector`: time is unbounded, the 32-bit tick counter does
  not wrap.
- `Mips.RestartIsExact`: where the instruction touches the pending load's target, exactness is
  characterised for a store of the target only.
- `Mips.StoreOfTargetRestartsIff`: the base register is another one than the register stored.
- `MachineObject.Machine.RaiseException`: the changes of mode around the kernel's handler and the
  call of the handler itself are not modelled.
- `Mips.DivideIsExact`: the quotient of the most negative word by -1, which C++ leaves undefined, is
  taken as the wrapped one.
- `MachineObject.Machine.Step`: the debugger, the instruction counter and the kernel's handling of
  the exception returned are not modelled.
