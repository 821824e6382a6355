# OS/161: arithmetic, scheduling, paging, heap and formatting

A Dafny model of the parts of this OS/161 kernel where correctness is hard to
see by reading: the 64-bit arithmetic run on a 32-bit machine, the thread
scheduler and the synchronisation built on it, demand paging with swap, the
kernel heap, the airballoon locking problem, and integer printing and parsing.

- **Digits, Qdivrem, LongLong** — Knuth's Algorithm D on arrays of 16-bit digits,
  changed in place, and the three-product multiplication. Words wrap explicitly.
- **Threadlist** — the doubly linked list with bookends as a class that refines a
  sequence.
- **Scheduler, Interrupts, Semaphore, LockCv, SpinOrder, LockOrder** — transition
  systems over any number of CPUs, threads and channels. One step is one section
  between spinlock operations. Main results speak about every state of every run:
  what never happens, and what the operations achieve (who runs next, who is woken,
  who holds the lock).
  Interrupts also has the spl and spinlock routines as methods of classes.
- **Migration** — `thread_consider_migration` as loops over the machine's run
  queues. What other CPUs do between two locked sections is an argument, so the
  results hold for every interleaving. The queues are passed in and out as a value
  because other CPUs change them in between. `Scheduler` has the same routine as
  steps among those of all other CPUs.
- **Bitmap, Coremap, Paging, PageTable, Vm, VmRun, Access** — byte array and frame array
  changed in place; page tables as lists of entries. `Paging` gives the steps on
  values, `Vm` the operations, and `VmRun` compares whole runs with a flat map from
  (address space, page) to contents that knows nothing of frames or swap: when each
  operation fails, what it answers, and what it leaves in every page. `Access` tells
  from the operations of a run alone which pages a process may use.
- **Pagerefs, Heap, Kheap, HeapRun, HeapCheck** — free lists kept inside the memory
  they describe, page references and their bitmap, on top of `Coremap`. `HeapRun`
  compares whole runs with a map of what clients hold, and `HeapCheck` shows that
  the heap's own checker, which is compiled out, would never complain.
- **Shared** — the heap and the virtual memory system on the coremap they share.
- **Airballoon** — every shared access and lock operation of every thread is a step.
- **Printf, Conversions, Atoi** — the digit buffer, the format state machine and its
  output buffer as classes with loops, specified by the text a format stands for.
  `Conversions` says what each conversion prints, by value and not by construction.

The virtual memory operations allocate kernel memory, which comes from the same
frames. How many frames each such allocation claims, and which frames `kfree` gives
back, are arguments of the operations, and their results count them.

Addresses of frames and pages are page numbers; heap addresses are bytes from the
start of physical memory, with 0 as NULL.

Facts about the code that are not what one might expect, each proved:

- `%-0Nd` fills with zeros on the right, so `atoi` does not undo it. `RoundTrip`
  gives the exact condition, for all values, widths and flags.
- Signed division wraps for exactly one pair of operands (`DivisionOverflow`).
- Migration needs its test for the current thread: without it another CPU loads a
  context nobody has saved (`GuardIsNeeded`), and runs from boot get there
  (`GuardFires`).
- A fault on a page without an entry, when the entry's own kernel memory takes the
  last frames, frees the entry it has just linked: the table then ends in freed
  memory. `VmFault` gives the exact condition, and `Run` stops there.
- `as_define_region` masks the page offset off before it would add it to the size,
  so the last page of an unaligned segment can be missing. `RegionCovers` gives the
  exact condition.
- When the last free frame goes to a new heap page and its reference needs a page
  too, `kmalloc` fails and leaves the reference marked (`AllocPageref`). After 256
  such losses a root can be passed over, and a later `kfree` then fails the assertion
  in `freepageref`: `Kfree` gives the exact condition, `HaltNeedsLosses` shows that it
  takes 256 losses, and `LossesBlockKfree` is a run from boot that gets there.
- `release_physical_page` on a frame that is not a chunk of one, or on a free one,
  leaves a coremap that is wrong (`Release`).
- A `kmalloc` of nearly 2^32 bytes asks for no pages at all, because the rounding
  wraps; it then fails as it should (`KmallocLarge`).
- Requests of exactly 2048 bytes get a whole page although a 2048-byte block type
  exists: the comparison in `kmalloc` is not strict (`Kmalloc`).
- `free_kpages` on a frame that does not start a chunk frees nothing (`FreeKernel`).

## Model

| member | source | states |
|---|---|---|
| `Qdivrem.Qdivrem` | common/gcc-millicode/qdivrem.c:67-263 | for all 64-bit u and v: a zero divisor traps, otherwise quotient and remainder are u / v and u % v, on every path through the routine |
| `Qdivrem.EstimateQhat` | common/gcc-millicode/qdivrem.c:186-210 | step D3: qhat leaves the loop as the true digit or one more, and below B, although its test is made on 32-bit words |
| `Qdivrem.D3IsExact` | common/gcc-millicode/qdivrem.c:205-210 | neither side of the test of D3 ever wraps, so it compares the true values, at its last evaluation too |
| `Qdivrem.TooBig` | common/gcc-millicode/qdivrem.c:205-210 | while the test of D3 succeeds, qhat is above the true digit, so decrementing is right |
| `Qdivrem.CloseEnough` | common/gcc-millicode/qdivrem.c:186-210 | when D3 stops, qhat is at most one above the true digit |
| `Qdivrem.SubtractDigit` | common/gcc-millicode/qdivrem.c:217-221 | one digit of D4: the difference computed in a wrapping word equals x - y * qhat - t plus the borrow handed on, exactly |
| `Qdivrem.SubtractTop` | common/gcc-millicode/qdivrem.c:222-223 | the last digit of D4: the borrow flag says whether the true difference is negative |
| `Qdivrem.MultiplySubtract` | common/gcc-millicode/qdivrem.c:211-223 | D4 in place on the window: its new value is old - qhat * v, or that plus B^(n+1) exactly when a borrow is reported |
| `Qdivrem.AddBack` | common/gcc-millicode/qdivrem.c:230-238 | D6 in place: the window grows by the divisor, up to the carry that is dropped |
| `Qdivrem.OneAddBack` | common/gcc-millicode/qdivrem.c:224-238 | whichever of its two values qhat had, a single add-back gives the true digit and the exact partial remainder |
| `Qdivrem.SubtractAndFix` | common/gcc-millicode/qdivrem.c:211-239 | D4 to D6 replace the window by its remainder modulo v and return its quotient digit |
| `Qdivrem.DivideDigit` | common/gcc-millicode/qdivrem.c:182-239 | D3 to D6 for a window below v * B: digit = window / v, and window % v is left behind |
| `Qdivrem.DivideLoop` | common/gcc-millicode/qdivrem.c:176-240 | the loop over j divides all m + 1 digits: U = quotient * V + what is left in u, which is below V |
| `Qdivrem.DivideStep` | common/gcc-millicode/qdivrem.c:182-240 | one turn of the loop keeps that account, and the next window is again below v * B |
| `Qdivrem.NormalisingShift` | common/gcc-millicode/qdivrem.c:163-171 | D1: the shift count brings the leading divisor digit into [B/2, B) |
| `Qdivrem.Normalise` | common/gcc-millicode/qdivrem.c:169-175 | both operands are multiplied by 2^d in place and nothing falls out of either |
| `Qdivrem.Shl` | common/gcc-millicode/qdivrem.c:265-279 | shifting len + 1 digits in place multiplies their value by 2^sh, less the bits that fall out |
| `Qdivrem.Unnormalise` | common/gcc-millicode/qdivrem.c:247-254 | the final in-place right shift divides the remainder's value by 2^d |
| `Qdivrem.ScaledDivision` | common/gcc-millicode/qdivrem.c:163-175 | scaling both operands by 2^d keeps the quotient and scales the remainder |
| `Qdivrem.ShortDivide` | common/gcc-millicode/qdivrem.c:123-150 | the one-digit shortcut: quotient and remainder of the whole value by a single digit |
| `Qdivrem.EnoughDigits` | common/gcc-millicode/qdivrem.c:99-111 | the dividend has at least as many digits as the divisor, so m is not negative |
| `Qdivrem.LongDivide` | common/gcc-millicode/qdivrem.c:152-262 | Algorithm D from the digit counts on: exact quotient, and the remainder if it was asked for |
| `LongLong.Divdi3` | common/gcc-millicode/divdi3.c:44-62 | division truncates toward zero, modulo 2^64, and traps on a zero divisor |
| `LongLong.Moddi3` | common/gcc-millicode/moddi3.c:45-62 | the remainder of truncating division, always exact |
| `LongLong.TruncLaw` | common/gcc-millicode/divdi3.c:44-62 | quotient times divisor plus remainder is a, and the remainder is smaller than b with the sign of a (section 6.5.5 of ISO C99) |
| `LongLong.TruncUnique` | common/gcc-millicode/moddi3.c:45-62 | no other pair satisfies that law |
| `LongLong.DivisionOverflow` | common/gcc-millicode/divdi3.c:44-62 | the quotient wraps for exactly one pair of operands, the most negative value by -1 |
| `LongLong.Lmulq` | common/gcc-millicode/muldi3.c:183-241 | the exact 64-bit product of any two 32-bit words, despite wrapping carries and borrows |
| `LongLong.ThreeProducts` | common/gcc-millicode/muldi3.c:52-69 | the identity that turns three half products into the product |
| `LongLong.AddShifted` | common/gcc-millicode/muldi3.c:218-232 | adding a shifted word with the carry detected by comparison is addition modulo 2^64 |
| `LongLong.SubtractShifted` | common/gcc-millicode/muldi3.c:219-222 | subtracting it with the borrow detected by comparison is subtraction modulo 2^64 |
| `LongLong.Muldi3` | common/gcc-millicode/muldi3.c:99-164 | a * b modulo 2^64 read as signed, for all signed operands |
| `Scheduler.AllRunsSafe` | kern/thread/thread.c:560-961 | over every run, migration included: no thread is current on, or on the stack of, two CPUs; a CPU only loads saved contexts; every thread is running or on exactly one list; an idle CPU with work has an interrupt coming; no run-queue lock has two holders; migration never takes from an empty queue or sends from an empty list |
| `Scheduler.StepKeeps` | kern/thread/thread.c:452-961 | each step (switch, idle, startup, fork, exit, wake, make runnable, and the 12 of migration with its counters) keeps the invariant |
| `Scheduler.QueueIsFifo` | kern/thread/thread.c:452-651 | over every run in which a CPU does not migrate threads away, its run queue is first in, first out: those on it followed by those that entered are those it chose followed by those still on it |
| `Scheduler.TurnComes` | kern/thread/thread.c:643-661 | a thread with i others before it is current after the CPU has chosen i + 1 times, whatever else happens in between |
| `Scheduler.YieldRunsNext` | kern/thread/thread.c:588-661 | after a yield the old head of the queue is current and the yielding thread is last on the queue |
| `Scheduler.StepIsFifo` | kern/thread/thread.c:452-959 | each step lets a thread in at the end of a run queue, out at its front, or leaves it alone |
| `Scheduler.ChosenRuns` | kern/thread/thread.c:643-718 | from the choice on the CPU gets to execute the chosen thread on its own context, in state running, with the old thread saved |
| `Scheduler.IdleCpuWakes` | kern/thread/thread.c:467-651 | an idle CPU for which a thread is made runnable leaves the idle loop and chooses: no wakeup is lost |
| `Scheduler.ForkedRunsHere` | kern/thread/thread.c:520-545 | a new thread joins the end of the queue of the CPU that forked it |
| `Scheduler.ExorciseTakesTheDead` | kern/thread/thread.c:279-289 | exactly the first zombie is destroyed; it has exited and no CPU is on its stack |
| `Scheduler.ChannelIsFifo` | kern/thread/thread.c:1039-1081 | over every run a wait channel wakes its sleepers in the order they went to sleep |
| `Scheduler.LeavesFor` | kern/thread/thread.c:597-642 | a thread that yields, sleeps or exits is last on the queue, channel or zombie list, in the state that goes with it |
| `Scheduler.LoneDecision` | kern/thread/thread.c:859-884 | undisturbed, migration counts every queue, stays put below the share, and otherwise takes exactly what is above it |
| `Scheduler.TakesLast` | kern/thread/thread.c:886-893 | the victims are the last threads of the queue, in order |
| `Scheduler.VictimLeaves` | kern/thread/thread.c:901-958 | the first victim is sent with its t_cpu changed, or returned; the current thread goes to the end of the victims instead |
| `Scheduler.SwitchIsSafe` | kern/thread/thread.c:660-664 | at the switch the chosen thread's context has been saved, or it is the one being left |
| `Scheduler.SwitchKeeps` | kern/thread/thread.c:641-664 | leaving one thread and arriving in another keeps lists and roles |
| `Scheduler.ZombieIsGone` | kern/thread/thread.c:279-289 | a zombie being reaped is current nowhere and no CPU is on its stack |
| `Scheduler.ExorciseKeeps` | kern/thread/thread.c:279-289 | reaping keeps lists and roles |
| `Scheduler.MakeRunnableKeeps` | kern/thread/thread.c:452-482 | putting a woken or forked thread on its CPU's queue keeps lists and roles |
| `Scheduler.MakeRunnableRoles` | kern/thread/thread.c:452-482 | and an idle target CPU is notified |
| `Scheduler.WakeOneKeeps` | kern/thread/thread.c:1057-1081 | taking a sleeper off its channel keeps lists and roles, also while its CPU still has it as c_curthread |
| `Scheduler.SendRoles` | kern/thread/thread.c:901-943 | sending a victim keeps every thread's role: t_cpu follows the move, and c_curthread is not sent |
| `Scheduler.MoveCounts` | kern/thread/thread.c:868-893 | each move keeps my_count within the queue, what is still to be taken on the queue, and to_send within the victims |
| `Scheduler.MoveLocks` | kern/thread/thread.c:868-958 | migration takes a run-queue lock only when nobody has it |
| `Scheduler.GuardIsNeeded` | kern/thread/thread.c:900-927 | wherever the c_curthread test fires for an empty queue of an executing CPU, sending the thread anyway lets that CPU load an unsaved context once the fill has ended |
| `Scheduler.GuardFires` | kern/thread/thread.c:859-927 | on every machine with at least two CPUs and a wait channel a run from boot, with the counts of the code, makes that test fire: two threads of CPU 0 sleep and are woken while it idles, the share is one, and the tail is c_curthread; skipping the test there breaks safety |
| `Migration.ConsiderMigration` | kern/thread/thread.c:858-961 | for every interference by other CPUs, which add to any queue and take from any place of their own: no thread is lost or duplicated, t_cpu matches the queue, the current thread stays; undisturbed, this CPU keeps exactly the first threads of its queue up to the share, followed by the current thread if that was skipped, which is exactly when it was among the surplus at the tail, and the others keep their queues with threads added at the end, none raised above the share |
| `Migration.CountThreads` | kern/thread/thread.c:868-879 | undisturbed, the counts are the queue lengths; otherwise this CPU's queue has at least the number counted |
| `Migration.TakeVictims` | kern/thread/thread.c:886-893 | the tail of the queue moves to the victims in order, and the dequeue never finds the queue empty |
| `Migration.SendOne` | kern/thread/thread.c:901-934 | the head victim joins the target's queue with t_cpu set, unless it is the current thread, which goes to the end of the victims |
| `Migration.Fill` | kern/thread/thread.c:900-945 | the target is not raised above the share, and reaches it unless nothing is left to send |
| `Migration.SendAll` | kern/thread/thread.c:895-946 | all CPUs are visited, with any interference between the visits |
| `Migration.PutBack` | kern/thread/thread.c:948-959 | leftovers return to this CPU's queue in order |
| `Migration.SendsAll` | kern/thread/thread.c:880-946 | the room argument: undisturbed, nothing that may move is left over |
| `Migration.ListedIsHome` | kern/thread/thread.c:903-927 | a current thread that is on a list is on its own CPU's queue |
| `KernLib.DivRoundUpCovers` | kern/include/lib.h:194-194 | the rounded-up quotient is the least one that covers |
| `Threadlist.ThreadList.constructor` | kern/thread/threadlist.c:60-72 | an initialised list is empty |
| `Threadlist.ThreadList.Insert` | kern/thread/threadlist.c:105-140 | linking a node between two neighbours inserts it in the sequence at that place |
| `Threadlist.ThreadList.Unlink` | kern/thread/threadlist.c:146-157 | unlinking a node removes it from the sequence and clears its links |
| `Threadlist.ThreadList.IsEmpty` | kern/thread/threadlist.c:91-97 | true exactly when the sequence is empty |
| `Threadlist.ThreadList.AddHead` | kern/thread/threadlist.c:162-170 | the sequence gains the thread at the front |
| `Threadlist.ThreadList.AddTail` | kern/thread/threadlist.c:172-180 | the sequence gains the thread at the back |
| `Threadlist.ThreadList.RemHead` | kern/thread/threadlist.c:182-198 | the front leaves the sequence, NULL exactly when it is empty |
| `Threadlist.ThreadList.RemTail` | kern/thread/threadlist.c:200-216 | the back leaves the sequence, NULL exactly when it is empty |
| `Threadlist.ThreadList.InsertAfter` | kern/thread/threadlist.c:218-224 | the thread stands right after the given one |
| `Threadlist.ThreadList.InsertBefore` | kern/thread/threadlist.c:226-232 | the thread stands right before the given one |
| `Threadlist.ThreadList.Remove` | kern/thread/threadlist.c:234-240 | the given thread leaves the sequence, the others keep their order |
| `Interrupts.NestingIsExact` | kern/thread/spl.c:86-160 | over every run: the running thread's count is its CPU's spinlocks plus one if its level is high, interrupts are on exactly at zero or in cpu_idle's window, a CPU with interrupts on holds no spinlock, every other thread has count 2 |
| `Interrupts.Cpu.SplRaise` | kern/thread/spl.c:86-104 | raising counts up and turns interrupts off at the first level |
| `Interrupts.Cpu.SplLower` | kern/thread/spl.c:106-124 | lowering counts down and turns interrupts on at zero |
| `Interrupts.Cpu.Splx` | kern/thread/spl.c:131-160 | with any number of spinlocks held, the level becomes the one asked for, the count changes by the difference, the spinlocks stay, and the old level comes back, with which a second call restores everything |
| `Interrupts.Spinlock.AcquireEntry` | kern/thread/spinlock.c:74-92 | raises the level and counts the lock before spinning; acquiring a lock twice panics |
| `Interrupts.Spinlock.TryAcquire` | kern/thread/spinlock.c:93-115 | one turn of the spin loop: takes the lock exactly when it was free |
| `Interrupts.Spinlock.Release` | kern/thread/spinlock.c:120-134 | frees the lock and undoes the raise |
| `Interrupts.DoIHoldIsExact` | kern/thread/spinlock.c:73-148 | over every run spinlock_do_i_hold is true on a CPU exactly when that CPU has obtained the lock and not released it since, so on one CPU at most |
| `Interrupts.SwitchCountIsTwo` | kern/thread/thread.c:570-588 | a thread that switches out has count exactly 2 |
| `Interrupts.LevelIsLastSet` | kern/thread/spl.c:131-160 | over every run the level of every thread, old or new, is the one it was last given by splx, a trap or fork |
| `Interrupts.SplxSetsLevel` | kern/thread/spl.c:131-160 | splx by a running CPU sets the level and the count of its thread, whatever it holds, and nothing else |
| `Interrupts.SleepReachesSwitch` | kern/thread/thread.c:570-616 | from any level, with only the channel's spinlock held, splhigh, the run-queue lock and the release of the channel's lock lead to a state where every thread that does not run can be switched to |
| `Interrupts.SwitchArrives` | kern/thread/thread.c:660-727 | after the switch the arriving thread runs, gives up the run-queue lock and restores its level, and interrupts follow that level |
| `Interrupts.TrapLeavesNoTrace` | kern/arch/mips/locore/trap.c:167-202 | inside an interrupt the level is high and interrupts are off, and a handler that does nothing leaves the state as it was |
| `Interrupts.WindowLeavesNoTrace` | kern/arch/mips/thread/cpu.c:227-239 | cpu_idle's window has interrupts on, and closing it undoes that |
| `Interrupts.SwitchKeeps` | kern/thread/thread.c:660-727 | the count travels with the thread, and the run-queue lock with the CPU |
| `Interrupts.ForkKeeps` | kern/thread/thread.c:520-541 | a new thread starts with count 2, as if it had switched out |
| `Interrupts.TrapAsserts` | kern/arch/mips/locore/trap.c:167-202 | an interrupt at the low level finds count 0; after a handler that restored level and locks the count is 1; any other interrupt comes in cpu_idle's window, at count 1 and without spinlocks |
| `Interrupts.TrapExitKeeps` | kern/arch/mips/locore/trap.c:184-202 | returning from an interrupt restores the exact count |
| `Interrupts.WindowStepsKeep` | kern/arch/mips/thread/cpu.c:227-239 | cpu_idle's window with interrupts on keeps the nesting |
| `Semaphore.SemaphoreSafe` | kern/thread/synch.c:88-135 | over every run: count + passed = initial + posted, and sleepers beside a positive count always have at least that many woken threads still to look |
| `Semaphore.PDecides` | kern/thread/synch.c:88-121 | at the end of any run a section of P passes exactly when something is left, and otherwise ends asleep, last on the channel |
| `Semaphore.ReturnsAreCovered` | kern/thread/synch.c:88-135 | over every run P returns at most as often as the initial count and the calls of V allow, and the count is exactly what is left |
| `Semaphore.WakesInOrder` | kern/thread/synch.c:123-135 | a sleeper with i others before it is woken by the V number i + 1 |
| `Semaphore.PKeeps` | kern/thread/synch.c:88-121 | each section of P keeps the account and the wakeup invariant |
| `Semaphore.VKeeps` | kern/thread/synch.c:123-135 | V keeps them, waking one sleeper |
| `LockCv.MutualExclusion` | kern/thread/synch.c:187-247 | over every run at most one thread holds the lock, lk_holder names it, and a free lock with sleepers has a woken thread in flight |
| `LockCv.AcquireDecides` | kern/thread/synch.c:187-208 | at the end of any run a section of lock_acquire, first or after a wakeup, ends holding a lock that nobody held, and otherwise asleep, last on the channel |
| `LockCv.ReleaseFrees` | kern/thread/synch.c:210-227 | at the end of any run lock_release, also inside cv_wait, leaves the lock free and the first sleeper woken |
| `LockCv.LoneAcquire` | kern/thread/synch.c:187-208 | with no other thread taking a step, lock_acquire on a free lock holds it and changes nothing else |
| `LockCv.LoneRelease` | kern/thread/synch.c:187-227 | acquiring and releasing alone puts everything back, unless a sleeper is woken |
| `LockCv.LockWakesInOrder` | kern/thread/synch.c:210-227 | over every run a sleeper with i others before it is woken by the release number i + 1 |
| `LockCv.SignalWakesInOrder` | kern/thread/synch.c:315-330 | over every run without broadcasts a waiter with i others before it is woken by the signal number i + 1 |
| `LockCv.WaitSleeps` | kern/thread/synch.c:294-309 | cv_wait gets to sleep, last on the channel, holding neither the lock nor the spinlock |
| `LockCv.SignalWakesTheWaiter` | kern/thread/synch.c:315-330 | a thread that comes, signals and leaves wakes the only waiter and changes nothing else |
| `LockCv.WokenReturns` | kern/thread/synch.c:294-313 | a woken waiter that finds the lock free returns from cv_wait holding it, and nothing else has changed |
| `LockCv.SignalSeesEveryWaiter` | kern/thread/synch.c:294-347 | over every run: a signaller holding the lock finds every thread that released it in cv_wait on the channel; broadcast wakes all of them, signal one |
| `LockCv.EveryWaiterOnChannel` | kern/thread/synch.c:294-313 | no waiter is between releasing the lock and sleeping when another thread can signal |
| `LockCv.BroadcastWakesAll` | kern/thread/synch.c:332-347 | a broadcast leaves no waiter |
| `LockCv.SignalWakesOne` | kern/thread/synch.c:315-330 | a signal wakes exactly one waiter if there is one |
| `LockCv.CvWaitReturnsHolding` | kern/thread/synch.c:294-313 | in any run, a thread inside cv_wait that is later back in its own code has acquired the lock in between |
| `LockCv.NoSpuriousWakeup` | kern/thread/synch.c:294-347 | in any run, a thread asleep in cv_wait stays asleep until the holder of the lock signals or broadcasts while it is on the channel |
| `LockCv.StepKeeps` | kern/thread/synch.c:187-347 | every section of lock_acquire, lock_release, cv_wait, cv_signal and cv_broadcast keeps the invariant |
| `SpinOrder.EveryOperationClimbs` | kern/thread/thread.c:1038-1149 | on every path of every operation spinlocks are taken in the order cv, lock or semaphore, run queue, IPI |
| `SpinOrder.SpinlocksNeverDeadlock` | kern/thread/synch.c:88-347 | CPUs anywhere inside such operations never wait for each other in a circle |
| `LockOrder.NoDeadlock` | kern/thread/thread.c:1072-1080 | agents that only ask for locks above those they hold cannot deadlock |
| `Bitmap.Bitmap.constructor` | kern/lib/bitmap.c:56-90 | all bits clear, and the padding bits of the last byte set |
| `Bitmap.Bitmap.Alloc` | kern/lib/bitmap.c:98-121 | marks the lowest clear bit, or reports none exactly when all bits are set; the index is always in range |
| `Bitmap.Bitmap.Mark` | kern/lib/bitmap.c:134-145 | sets that bit and no other |
| `Bitmap.Bitmap.Unmark` | kern/lib/bitmap.c:147-158 | clears that bit and no other |
| `Bitmap.Bitmap.IsSet` | kern/lib/bitmap.c:160-169 | reads the bit; padding reads as set |
| `Bitmap.AllBits` | kern/lib/bitmap.c:104-118 | a byte that is not all ones has a clear bit, so the inner search succeeds |
| `Bitmap.LowestView` | kern/lib/bitmap.c:107-113 | the bit found is below nbits, as the code asserts |
| `Coremap.Coremap.constructor` | kern/vm/vm.c:31-75 | kernel and coremap fit below the first managed frame, every managed frame is free, count 0 |
| `Coremap.Coremap.AllocateKernel` | kern/vm/vm.c:113-151 | first fit: 0 exactly when no free run of that length exists (or none is asked for), otherwise the lowest run becomes a chunk and the count grows by its length |
| `Coremap.Coremap.FindRun` | kern/vm/vm.c:120-134 | the counting loop finds the lowest run |
| `Coremap.Coremap.AllocateUser` | kern/vm/vm.c:153-185 | the lowest free frame with its owner recorded, 0 exactly when none is free |
| `Coremap.Coremap.FreeKernel` | kern/vm/vm.c:192-208 | frees exactly the frames of the chunk that starts there, a user frame being a chunk of one, and nothing where none starts |
| `Coremap.Coremap.Release` | kern/vm/vm.c:210-228 | frees the frame, or fails exactly when it is under eviction; the coremap stays consistent exactly for frames whose recorded size is one |
| `Coremap.ReleaseBreaks` | kern/vm/vm.c:210-228 | releasing one frame of a longer kernel chunk breaks the chunk |
| `Coremap.Coremap.SelectVictim` | kern/vm/vm.c:447-476 | the clock picks the first used frame with a clear reference bit from the hand, or the first used one if all were set, having cleared the bits it passed |
| `Coremap.Coremap.Turn` | kern/vm/vm.c:448-462 | the clock loop ends within two sweeps |
| `Coremap.ChoiceMade` | kern/vm/vm.c:448-466 | where the loop stops is that choice |
| `Coremap.ChunksDisjoint` | kern/vm/vm.c:137-143 | kernel chunks never overlap |
| `Coremap.ClaimSpares` | kern/vm/vm.c:137-143 | claiming a free run leaves every chunk intact |
| `Coremap.FreeSpares` | kern/vm/vm.c:197-204 | freeing a chunk leaves every other chunk intact |
| `Paging.SwapInKeeps` | kern/vm/vm.c:279-289 | swapping in keeps the invariant and the contents of every page |
| `Paging.SwapOutKeeps` | kern/vm/vm.c:478-503 | swapping out keeps the invariant and the contents of every page |
| `Paging.MapPageKeeps` | kern/vm/vm.c:315-336 | a new entry changes the contents of that page only |
| `Paging.DropMappedKeeps` | kern/vm/addrspace.c:168-177 | giving up a mapped page frees its frame and touches no other page |
| `Paging.DropSwappedKeeps` | kern/vm/addrspace.c:165-167 | giving up a swapped page clears its slot and touches no other page |
| `Paging.FrameHasOneEntry` | kern/vm/vm.c:153-185 | each used frame backs exactly one MAPPED entry, at its recorded owner and address |
| `Paging.SlotHasOneEntry` | kern/vm/vm.c:370-436 | each marked swap bit belongs to exactly one SWAPPED entry, each clear one to none |
| `Paging.NoSharing` | kern/vm/addrspace.c:95-117 | no two pages share a frame or a swap slot |
| `PageTable.AgreeAppend` | kern/vm/vm.c:315-324 | appending an entry adds that page to the address space |
| `PageTable.AgreeReplace` | kern/vm/vm.c:288-289 | changing an entry in place changes that page's place only |
| `PageTable.AgreeRemove` | kern/syscall/proc_syscalls.c:476-480 | unlinking an entry removes that page only |
| `PageTable.Find` | kern/vm/vm.c:274-300 | the list search finds the entry for an address exactly if there is one |
| `Vm.Vm.VmFault` | kern/vm/vm.c:240-363 | no page's contents change whatever the outcome; EFAULT exactly for addresses outside stack, heap and segments; ENOMEM exactly when a swapped page finds no frame, or a new entry no kernel memory or no frame beyond those its own kernel memory claims; on success the page is resident where it was or in a frame that was free; the table ends in a freed entry exactly when the kernel memory of a new entry takes the last frames; kernel frames grow by exactly the claims |
| `Vm.Vm.Claim` | kern/vm/kmalloc.c:955-985 | an allocation of kernel memory claims its frames one by one: it fails exactly when they run out or it fails anyway, and nothing but those free frames changes |
| `Vm.Vm.ReadSwapDisk` | kern/vm/vm.c:370-396 | the slot's contents reach the frame, failing exactly when the slot is not marked |
| `Vm.Vm.WriteSwapDisk` | kern/vm/vm.c:398-424 | the frame's contents reach the lowest clear slot, failing exactly when there is none |
| `Vm.Vm.Evict` | kern/vm/vm.c:438-506 | the clock's victim goes to disk, its entry becomes SWAPPED and reads as before; panics exactly when swap is full |
| `Vm.Vm.AsCreate` | kern/vm/addrspace.c:45-63 | a new address space reads as zero everywhere; fails exactly without kernel memory |
| `Vm.Vm.AsCopy` | kern/vm/addrspace.c:65-153 | succeeds exactly when every kernel allocation does and the frames they claim plus one for every entry are there; the child then has the parent's segments, heap and contents at every page, also swapped ones, in frames of its own; parent and others are unchanged, also on failure |
| `Vm.Vm.CopyAll` | kern/vm/addrspace.c:71-121 | the loop over the entries stops exactly where kernel memory or frames run out, with an account of the frames taken so far |
| `Vm.FitsAll` | kern/vm/addrspace.c:65-153 | the allocations and pages of a copy fit one after the other exactly when all succeed and their total fits |
| `Vm.Vm.CopyEntry` | kern/vm/addrspace.c:89-120 | one page is copied into a fresh frame from memory or from swap |
| `Vm.Vm.AsDestroy` | kern/vm/addrspace.c:155-200 | the address space and its pages are gone, all others read as before; kernel frames change only by those kfree gives back |
| `Vm.Vm.AsDefineRegion` | kern/vm/addrspace.c:241-279 | the pages of the segment are appended, memory is unchanged; fails exactly without kernel memory |
| `Vm.RegionCovers` | kern/vm/addrspace.c:246-250 | the recorded pages hold the whole segment exactly when its size plus its page offset needs no more pages than its size |
| `Vm.RegionFallsShort` | kern/vm/addrspace.c:246-250 | two bytes across a page boundary get a single page |
| `Vm.Vm.AsPrepareLoad` | kern/vm/addrspace.c:281-301 | the empty heap starts at the highest segment end |
| `Vm.Vm.Sbrk` | kern/syscall/proc_syscalls.c:413-496 | the heap end moves by exactly the increment, pages given up read as zero from then on, nothing else changes |
| `Vm.CheckSbrk` | kern/syscall/proc_syscalls.c:423-449 | the exact conditions for ENOMEM and EINVAL on unbounded integers, although the 32-bit sum may wrap |
| `Vm.Vm.Shrink` | kern/syscall/proc_syscalls.c:454-490 | the nested loops give up exactly the pages between the new and the old end |
| `Vm.Vm.Load` | kern/vm/vm.c:240-363 | a load returns the contents of the flat memory, and fails exactly when the fault does, with the same error |
| `Vm.Vm.Store` | kern/vm/vm.c:240-363 | a store changes exactly that page of the flat memory, and fails exactly when the fault does, with the same error |
| `Vm.Vm.AllocKpages` | kern/vm/vm.c:187-190 | kernel allocations are zeroed and disturb no user page |
| `Vm.Vm.FreeKpages` | kern/vm/vm.c:192-208 | any frame is accepted; user pages stay right exactly when the frame held none |
| `VmRun.Run` | kern/vm/vm.c:240-506 | for any sequence of operations, with a state for each: every operation fails, with a stated error, exactly under a condition on the state it meets and the frames its own kernel memory claims, otherwise answers what a flat machine answers, and leaves what it holds in every page; entries and kernel frames change as stated; the run stops early only at an access that frees a linked entry |
| `VmRun.Step` | kern/vm/vm.c:240-506 | one operation: the exact condition for failing, the answer of the flat machine, and which entries and frames change |
| `VmRun.ResidentLoad` | kern/vm/vm.c:290-293 | in any run a load of a valid resident page returns its contents |
| `VmRun.LoadAfterStore` | kern/vm/vm.c:240-363 | in any run, however full memory is, a load right after a store that did not fail returns what was stored |
| `Access.EfaultIsExact` | kern/vm/vm.c:240-267 | over every run from boot an access is EFAULT exactly when, by what the run did, the address space does not exist or the page is neither in the stack, nor in a segment that was defined, nor in heap that sbrk added and has not taken away |
| `Access.AgreesAlways` | kern/vm/vm.c:240-267 | after every run the heap is the pages sbrk added and has not taken away, and the segments are those defined, also through copies |
| `Access.GrownIsUsable` | kern/syscall/proc_syscalls.c:413-496 | an access to a page sbrk has added is never EFAULT |
| `Access.ShrunkIsGone` | kern/syscall/proc_syscalls.c:413-496 | an access to a page sbrk has taken away is EFAULT, outside the stack and the segments |
| `Access.SegmentIsUsable` | kern/vm/addrspace.c:241-279 | an access to any page of a segment that was defined is never EFAULT |
| `Access.NewSpaceHasStack` | kern/vm/addrspace.c:45-63 | in a new address space exactly the stack pages are accessible |
| `Access.ChildLikeParent` | kern/vm/addrspace.c:65-153 | a copy may use exactly the pages its parent could |
| `Access.DestroyedHasNone` | kern/vm/addrspace.c:155-200 | every access to a destroyed address space is EFAULT |
| `Access.SbrkContinues` | kern/syscall/proc_syscalls.c:413-496 | each sbrk starts where the one before it ended and moves by its argument |
| `Access.HeapAfterSegments` | kern/vm/addrspace.c:281-301 | the first sbrk starts after every segment defined before the heap was set up |
| `VmRun.FreeIsRest` | kern/vm/vm.c:153-185 | a frame is free exactly when it is not the kernel's and no entry has it |
| `Shared.HeapKeepsPaging` | kern/vm/kmalloc.c:875-1217 | whatever the heap does, every page table stays right and every user page keeps its contents |
| `Shared.VmKeepsOwned` | kern/vm/vm.c:113-506 | whatever the virtual memory system does, the coremap still has a chunk for every page of the heap, unless one is freed behind its back |
| `VmRun.BootAndRun` | kern/vm/vm.c:31-111 | the same from boot, where every managed frame is free and the flat memory is all zeros |
| `VmRun.CopyRefines` | kern/vm/addrspace.c:65-153 | copying an address space is copying its part of the flat map |
| `VmRun.ShrinkRefines` | kern/syscall/proc_syscalls.c:454-492 | shrinking the heap removes that range of the flat map |
| `Pagerefs.Roots.Alloc` | kern/vm/kmalloc.c:256-298 | the first free reference of the first root that has one, none exactly when all are in use, with numinuse equal to the number in use |
| `Pagerefs.Roots.Free` | kern/vm/kmalloc.c:318-330 | the reference is no longer in use and numinuse follows |
| `Pagerefs.CountedUpdate` | kern/vm/kmalloc.c:256-337 | each root's numinuse stays the population count of its bitmap |
| `Heap.PopKeeps` | kern/vm/kmalloc.c:920-940 | taking the head of a page's free list keeps the heap consistent |
| `Heap.PushKeeps` | kern/vm/kmalloc.c:1110-1132 | giving a block back to the list keeps it consistent |
| `Heap.AddPageKeeps` | kern/vm/kmalloc.c:987-1012 | a fresh page with all its blocks linked keeps it consistent |
| `Heap.DropPageKeeps` | kern/vm/kmalloc.c:1135-1142 | removing a wholly free page keeps it consistent |
| `Heap.Accounting` | kern/vm/kmalloc.c:495-568 | on every page free blocks plus live blocks equal the capacity |
| `Heap.Disjoint` | kern/vm/kmalloc.c:875-1217 | any two blocks, of whatever kind, are disjoint |
| `Heap.ClientWriteKeeps` | kern/vm/kmalloc.c:60-68 | a client writing inside its own block cannot damage a free list |
| `Heap.LinkedChain` | kern/vm/kmalloc.c:996-1006 | the loop that links a fresh page yields the full free list, highest block first |
| `Kheap.BlockType` | kern/vm/kmalloc.c:851-867 | the smallest block type that fits |
| `Kheap.Kheap.AllocPageref` | kern/vm/kmalloc.c:216-298 | an unused reference, marked in use, on a page the heap owns; none exactly when all are in use, or when its root has no page and no frame is free, and then the reference stays marked; the roots and the free frames change as stated |
| `Kheap.Kheap.FreePageref` | kern/vm/kmalloc.c:303-337 | the root is found by its page, and every other reference in use stays marked; the assertion fails exactly when a root without a page, but with references in use, comes before that root |
| `Kheap.Kheap.BuildList` | kern/vm/kmalloc.c:996-1003 | writes the links of a fresh page, touching no other page |
| `Kheap.Kheap.NewPage` | kern/vm/kmalloc.c:955-1012 | a new page of that block type with all its blocks free; none exactly when no frame is free, all references are in use, or the last frame is needed for references; then nothing changes for clients |
| `Kheap.Kheap.TakeBlock` | kern/vm/kmalloc.c:920-940 | the list head read through memory is removed from the list |
| `Kheap.Kheap.SubpageKmalloc` | kern/vm/kmalloc.c:875-1016 | NULL exactly when no page of the type has a free block and no new page can be made; otherwise a block no client had, at least as large as asked and aligned to its size |
| `Kheap.Kheap.KmallocLarge` | kern/vm/kmalloc.c:1179-1193 | page-aligned whole pages; NULL exactly when no free run of that many pages exists or the size rounds past 32 bits |
| `Kheap.Kheap.Kmalloc` | kern/vm/kmalloc.c:1163-1200 | both ways together, with the exact condition for NULL: live blocks grow by exactly the new one, which is whole pages exactly for sizes of at least 2048; the frames it takes and the references it marks are exact, and no frame is lost or taken from anybody else |
| `Kheap.Kheap.ReleasePage` | kern/vm/kmalloc.c:1135-1142 | the reference leaves both lists and its page is freed, no live block is affected; the assertion of freepageref fails exactly when it is blocked |
| `Kheap.Kheap.SubpageKfree` | kern/vm/kmalloc.c:1022-1154 | the block leaves the live blocks; its page is given back exactly when it becomes wholly free, and no other; not-ours is reported exactly for large blocks; the assertion fails exactly when the page becomes wholly free and its reference is blocked |
| `Kheap.Kheap.Kfree` | kern/vm/kmalloc.c:1205-1217 | freeing NULL or a live block removes exactly that block and loses no frame, or fails the assertion of freepageref, with the exact condition |
| `Kheap.ClearInOrder` | kern/vm/kmalloc.c:303-337 | the assertion of freepageref can fail for no reference exactly while roots have got their pages in order |
| `Kheap.OrderStep` | kern/vm/kmalloc.c:256-298 | that order is kept by every kmalloc except exactly one that gets a page for a root while an earlier one has none |
| `Kheap.BreakNeedsLosses` | kern/vm/kmalloc.c:265-288 | such a kmalloc comes only after 256 references of a root have been lost |
| `HeapRun.Run` | kern/vm/kmalloc.c:1163-1217 | any sequence of operations runs to its end or to the first kfree that fails the assertion of freepageref: after every operation clients hold exactly what they were given and did not free, in disjoint blocks; NULL is returned exactly when there is no room; free frames and heap frames together stay the same |
| `HeapRun.HaltNeedsLosses` | kern/vm/kmalloc.c:303-337 | from boot no kfree of any run fails the assertion before 256 references have been lost |
| `HeapRun.OrderOverRun` | kern/vm/kmalloc.c:256-337 | over every run from boot, references without a page are only lost ones, and until 256 are lost roots get their pages in order |
| `HeapRun.LossesBlockKfree` | kern/vm/kmalloc.c:256-337 | with two free frames at boot a run of 258 kmalloc and two kfree fails the assertion |
| `HeapRun.NextIsBlocked` | kern/vm/kmalloc.c:303-337 | once a root has lost all its references, the next page reference is blocked |
| `HeapRun.HeldAreSeparate` | kern/vm/kmalloc.c:875-1217 | in any valid heap the live blocks, at their requested sizes, do not overlap |
| `HeapCheck.CheckSubpage` | kern/vm/kmalloc.c:474-568 | the compiled-out page checker, walking the list through memory, finds every page of a consistent heap in order |
| `HeapCheck.CheckSubpages` | kern/vm/kmalloc.c:574-603 | the checker of all pages passes: both kinds of list hold the same number of references, within bounds |
| `HeapCheck.SameLengths` | kern/vm/kmalloc.c:588-602 | the size lists together are as long as allbase |
| `HeapCheck.FewReferences` | kern/vm/kmalloc.c:591-598 | there are never more references than TOTAL_PAGEREFS |
| `Airballoon.AllRunsSafe` | kern/synchprobs/airballoon.c:63-185 | over every run: ropes_left is the uncut ropes plus the cuts not yet counted, each rope is cut at most once, stakes are a permutation outside a swap, escape is announced only when all ropes are cut |
| `Airballoon.StepKeeps` | kern/synchprobs/airballoon.c:63-185 | every shared access and lock operation keeps the invariant |
| `Airballoon.CutStakeFixed` | kern/synchprobs/airballoon.c:145-157 | over every run a cut rope stays cut and keeps its stake |
| `Airballoon.CutterFinishes` | kern/synchprobs/airballoon.c:70-86 | in any run a cutter that has taken a rope lets go of it only when it is cut, once, and counted |
| `Airballoon.LordExchanges` | kern/synchprobs/airballoon.c:145-157 | a lord that has two uncut ropes has exchanged their stakes three steps of its own later, whatever the others do |
| `Airballoon.NoCircularWait` | kern/synchprobs/airballoon.c:136-147 | no group of threads waits in a circle |
| `Airballoon.WaitChainEnds` | kern/synchprobs/airballoon.c:63-185 | from every blocked thread the chain of lock holders ends in a thread that holds a lock and can move |
| `Printf.ConvertNumber` | common/libc/printf/__printf.c:426-467 | the digit loop leaves the numeral of any 64-bit value right-aligned before the NUL, inside the buffer |
| `Printf.NumeralFits` | common/libc/printf/__printf.c:76-84 | any 64-bit value in base 8, 10 or 16 fits NUMBER_BUF_SIZE with its NUL |
| `Printf.NumeralMeans` | common/libc/printf/__printf.c:433-459 | the numeral denotes the value |
| `Printf.NumeralShape` | common/libc/printf/__printf.c:433-459 | it uses digits of the base only, at least one, with no leading zero |
| `Printf.Pf.PrintStuff` | common/libc/printf/__printf.c:360-404 | the pieces sent are the padded field |
| `Printf.PaddedWidth` | common/libc/printf/__printf.c:371-380 | a field is as wide as asked or as its text, whichever is more |
| `Printf.Pf.PrintNum` | common/libc/printf/__printf.c:414-491 | sign, base prefix, padding and digits in the right order |
| `Printf.Pf.SendChar` | common/libc/printf/__printf.c:497-563 | one format character prints, changes the field state and consumes arguments as specified |
| `Printf.Pf.Vprintf` | common/libc/printf/__printf.c:570-592 | everything sent is the rendering of the format, whose conversions are characterised one by one in Conversions |
| `Conversions.ModifiersMean` | common/libc/printf/__printf.c:180-233 | modifiers in any order and number: alternate format if there is a #, left alignment if there is a -, zero fill if the first digit is 0, the width the digits spell, long long for an even number of l after the last z |
| `Conversions.HexPrints` | common/libc/printf/__printf.c:288-343 | %x prints the argument modulo 2^32, or 2^64 with ll, in base 16 without leading zeros, after 0x if there is a #, then the rest of the format with the arguments after it |
| `Conversions.OctalPrints` | common/libc/printf/__printf.c:288-343 | %o likewise in base 8, after 0 if there is a # |
| `Conversions.UnsignedPrints` | common/libc/printf/__printf.c:288-343 | %u likewise in base 10, never with a prefix |
| `Conversions.SignedPrints` | common/libc/printf/__printf.c:253-287 | %d prints the signed number that agrees with the argument modulo 2^32 or 2^64, after a minus if it is negative |
| `Conversions.PointerPrints` | common/libc/printf/__printf.c:244-252 | %p prints the address in base 16 after 0x |
| `Conversions.StringPrints` | common/libc/printf/__printf.c:535-545 | %s prints the string, or (null) |
| `Conversions.CharPrints` | common/libc/printf/__printf.c:546-562 | %c prints the character, or nothing for NUL |
| `Conversions.OtherPrints` | common/libc/printf/__printf.c:546-562 | %% and letters that are no conversion print themselves and use no argument |
| `Conversions.PlainPrints` | common/libc/printf/__printf.c:503-510 | text without a % prints itself |
| `Conversions.TwoConversions` | common/libc/printf/__printf.c:570-592 | of two conversions with text between them the second reads the second argument |
| `Conversions.WritesOnce` | common/libc/printf/__printf.c:433-459 | a number is written in a base by one text without leading zeros only |
| `Atoi.PaddedForms` | common/libc/printf/__printf.c:360-404 | fill goes before the sign, or between sign and digits for zeros, or after everything for left alignment |
| `Printf.Snp.Send` | common/libc/printf/snprintf.c:73-93 | the buffer always holds the longest prefix of what was sent that fits |
| `Printf.Vsnprintf` | common/libc/printf/snprintf.c:98-142 | returns the full length, stores the longest fitting prefix NUL-terminated and nothing beyond, and stores nothing for length 0 (section 7.19.6.5 of ISO C99) |
| `Atoi.Parse` | common/libc/stdlib/atoi.c:49-101 | the loops compute the signed value of the leading digits after blanks and a sign, on 32-bit unsigned arithmetic |
| `Atoi.ParsedMeans` | common/libc/stdlib/atoi.c:49-101 | every string is worth the value of its digits, negated after a minus, modulo 2^32; a plus, blanks and tabs before it and anything after it do not matter |
| `Atoi.TakeApart` | common/libc/stdlib/atoi.c:60-92 | every string consists of blanks, a sign or none, digits, and a rest |
| `Atoi.DirectivePrints` | common/libc/printf/__printf.c:181-233 | %d with flags and width prints the padded text of the argument |
| `Atoi.RoundTrip` | common/libc/stdlib/atoi.c:49-101 | atoi undoes %d for every int, any width and flags, if and only if it is not left-aligned zero filling with something to fill, or the value is 0 |
| `Atoi.OnlyZeroSurvives` | common/libc/printf/__printf.c:400-403 | zeros appended on the right change every value but 0, also modulo 2^32 |

## Left out

- Vm.Vm.VmFault: what an access does after a table has come to end in a freed entry (kern/vm/vm.c:324-332) is undefined and not modelled; runs stop there.
- Vm.Vm.Claim: which allocation claims how many frames is an argument, so the results hold for every behaviour of kmalloc that claims single frames; the growth of the array of wait channels past a page (kern/thread/thread.c:990-993), which claims a larger chunk and frees the old array, is not covered.
- Vm.Vm.Evict: is one more step of the system, because evict_page has no caller; the frame it leaves in_eviction is never reused, as in the source.
- Vm.Vm.AsDefineRegion: takes segments that end below the top of user space; the ELF loader that calls it is not modelled.
- Vm.Vm.AsCopy: the loss of one kernel allocation on its out-of-memory path (kern/vm/addrspace.c:96-100) is not visible in the model.
- Kheap.Kheap.Kfree: what the kernel does after a failed assertion is not modelled; runs stop there.
- Pagerefs.Roots.Alloc: the 32-bit words of the in-use bitmap are 32 flags each; bit operations on machine words are modelled in Bitmap.
- Interrupts.TrapAsserts: that a handler restores the level and releases its locks is the discipline of the handlers, which are not modelled.
- Interrupts.DoIHoldIsExact: spinlock_do_i_hold answers true before the first CPU structure exists (kern/thread/spinlock.c:142-144); that time is not modelled.
- Printf.Pf.SendChar: spacing and charcount are 32-bit ints in the source (common/libc/printf/__printf.c) and unbounded here; their overflow is undefined in C.
- Atoi.RoundTrip: speaks of field widths as numbers of any size, for the same reason.
- Interleavings inside one VM or heap operation: each is one step, so retries on in_eviction frames and the re-check after kmalloc_spinlock is retaken are not covered.
- The wait loops of P, lock_acquire and cv_wait are steps of a transition system, not methods with loops.
- Linked lists of page-table entries, segments and page references are sequences; only thread lists and free blocks are modelled link by link.
- Timer-driven preemption points are not part of Interrupts; Scheduler allows a yield or a migration anywhere.
- TLB contents, memory barriers, switchframe_switch, trap entry and other machine-dependent code; memory is sequentially consistent and test-and-set atomic.
- I/O errors of the swap disk; reads and writes of the swap file always succeed.
- Variadic arguments are an unbounded supply of slots; reading past the end is undefined in C and not modelled.
- The semaphores by which airballoon's main thread waits for the others.
- PID table and process lifecycle: pid uniqueness is not an invariant of the code.
- File-handle reference counts: count equals number of references is not kept by the code.
- bswap64: two of its shifts go the wrong way, so swapping twice is not the identity.
- kmalloc's guard bands, labels and 0xdeadbeef fill, which are compiled out or do not affect allocation.
- vm_bootstrap without a usable swap disk: the swap bitmap is then missing rather than empty.
- VFS, devices, console, ELF loading, copyin and copyout, the menu and autoconf: plumbing that would only add easy members.
