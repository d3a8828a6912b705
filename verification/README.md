# Hyrule, modelled and proved

Hyrule is a user-mode RV32 emulator: a dynamic binary translator, a small cooperative process kernel and a guest
address-space manager. This project models the parts of it that are hard to get right and proves, for every input and
every run, what they are for. `dafny verify dfyconfig.toml` checks everything.

**Translation engine.** `Isa` is a reference machine for RV32IM with Zifencei, written from the RISC-V Unprivileged
ISA 20191213 (sections 2.2 to 2.6, chapter 3, sections 7.1 and 7.2). Chapter 3 lets an instruction fetch see any image
that memory has had since the last `fence.i`, so the machine carries the set of those images; self-modifying code needs
no hypothesis. `Translator` is the decoder and the choice of template and parameters. `HostMachine` is the few x86
registers, flags and instructions that the templates use; `Templates` runs every template on it. `TranslationCache` and
`Engine` are the byte cache that keeps stale code across a flush, its index, the prefetch loop and `vmresume`. There are
two main results. Whatever a hart does in its whole life is a run of the reference machine, whatever its ecalls are
answered, each time anew, and whatever other tasks do to memory in between. And if nobody stores to the code it
executes, that life is the one of a plain interpreter, which fetches from the present memory and is determined by those
answers and changes. `IsaLaws` says in plain arithmetic what the operations mean that the machine and the host share:
division, multiplication, shifts, bits and memory. Template lengths are a parameter (`Layout`), with the one demand that
each fits an empty cache. `MissedJumper` is a program on which a hart reaches the one state in which prefetching leaves a
chain open.

**Process kernel.** `Scheduler` is the kernel as pure steps, a step being everything a task does between two yields;
`SchedulerRuns` proves what every run from boot keeps. `IntrusiveList` is the doubly linked list on the heap.
`TaskSystem` is the kernel as it runs, on those lists: four global lists, and for each task two links, a wait queue and,
while it waits, a list of blobs with their queue entries. `TaskPicture` says when such a heap shows a kernel state, and
`WaitScan` is the algebra of the loops of wait4. Each operation makes the step of the same name, and every assertion of
the kernel and of its lists is shown to hold rather than demanded of the caller. `KernelRuns` puts the two together: from
boot on, whatever the tasks do, the heap goes through a run of `SchedulerRuns` and nothing dies. `WaitRuns` says in the
words of a program what clone and wait4 promise it: whose child a clone is, for ever, and which children a wait4 is for.

**Address space.** `Regions` is the region table, its comparator and the bubble sort; `AddressSpace` is the array of
128 slots under register, mmap, munmap and brk; `GuestMemory` is an access to it, tied to the memory of `Isa`;
`ForkedMemory` is what clone does to memory.

**Byte algorithms.** `PathNames` is the path canonicaliser and its use by open and chdir, `InitialStack` the builder of a
program's first stack.

`Words`, `Collections` and `Tables` hold the arithmetic of 32-bit words, facts on sequences, and the search and sort
macros.

A failed assertion, a `__not_reach` and a host fault are outcomes of the model, not preconditions. Host allocation,
the answer of each system call and the clock behind time slices are parameters or free choices of the run.

Where the code does not do what one would expect, the model follows the code and states exactly when it goes wrong:

- the wrapping comparator orders a set of keys if and only if they fit a half-circle (`PcIndex.OrderIffHalfCircle`);
- a prefetch that flushes and refills to its starting offset appends no jumper; the chains are closed if and only if that
  did not happen (`Engine.Hart.Prefetch`), and a hart can get there (`MissedJumper.Miss`);
- a prefetch ends the emulator if and only if the straight line reaches an instruction it rejects before a cached one, a
  control block or the end of the room (`TranslationCache.RunFailure`);
- the host divides, so `div`, `rem` and `remu` end the emulator on exactly the operands of `Templates.DivideFaults`, which
  are there (`Templates.DivisionsThatFault`);
- appending the only member of a list to it passes the assertions and links it to itself (`IntrusiveList.List.Append`);
- registering a 129th region passes the guard, which allows 256, and writes past the array
  (`AddressSpace.TableOverflows`);
- a search for address 0xffffffff ends the process unless the table is empty (`AddressSpace.LastAddressDies`);
- an access is the one of the reference machine if and only if it does not run past the end of a region, even where
  another one follows (`GuestMemory.LoadValue`, `GuestMemory.StoreValue`, with an input in `GuestMemory.SeamIsMissed`);
- mmap ends the process if and only if `AddressSpace.Aborts` holds of the table, the hint and the length: the range of an
  accepted hint wraps, or no hint is accepted and the length is within a page of 2^32
  (`AddressSpace.AbortsOnlyOnWrap`, with inputs in `AddressSpace.WrappingRequestsAbort`);
- the heap pointer survives a change of the table if and only if the change is above the heap
  (`AddressSpace.InsertKeepsSlot`, `AddressSpace.RemoveKeepsSlot`);
- a clone without CLONE_VM copies from a null pointer if and only if some region has no buffer, as the heap has none
  before the first accepted brk (`ForkedMemory.Duplicate`, with an input in `ForkedMemory.EarlyForkDies`);
- a path that resolves to the root canonicalises to "/" if it ends in a slash and to the empty string otherwise;
- open takes a path for absolute after skipping blanks but canonicalises it with them, so what is left of the blanks can
  be glued to the name that the root ends in; a path stays under the root if and only if that does not happen
  (`PathNames.UnderRootIff`, with an input in `PathNames.TwoBlanksLeaveRoot`).

## Model

| member | source | states |
|---|---|---|
| Tables.Search | sandbox/search.h:10-37 | binary search never returns a wrong element; on a table whose comparisons descend a miss means that a linear scan finds nothing; it dies only on a fatal comparison |
| Tables.InsertionPoint | sandbox/sort.h:41-65 | the index found splits a ranked table into elements not above and not below the new one |
| Tables.InsertionSort | sandbox/sort.h:35-76 | the last element moves to one index, all others keep their order, and a ranked table stays ascending |
| PcIndex.OrderIffHalfCircle | sandbox/hart.c:98-112 | the wrapping comparison is an order on a set of pcs if and only if all of them lie within 2^31 above one of them |
| PcIndex.WideKeysAreNotOrdered | sandbox/hart.c:108-112 | three pcs that the comparator puts in a cycle |
| PcIndex.InsertedIsIndexed | sandbox/sort.h:35-76 | inserting a fresh pc in rank order keeps the index sorted and free of duplicates |
| PcIndex.EntriesInsertAt | sandbox/hart.c:128-141 | inserting an item anywhere adds exactly its entry to the finite map the array stands for |
| PcIndex.Index.Lookup | sandbox/hart.c:152-170 | an item is found if and only if its pc was added since the last flush, with the offset it was added with; a hit is right even without the span condition |
| PcIndex.Index.Add | sandbox/hart.c:128-141 | the finite map gains exactly the new entry and the array stays sorted |
| Translator.SignExtend32 | sandbox/util.h:36-46 | the bit-by-bit loop yields the value congruent to the signed field |
| Translator.ImmediateJ | sandbox/translation.c:26-82 | the scattered jal field, doubled and sign-extended, is the J-immediate of the ISA |
| Translator.ImmediateB | sandbox/translation.c:26-82 | the scattered branch field, doubled and sign-extended, is the B-immediate of the ISA |
| Translator.TranslationFollowsDecoding | sandbox/translation.c:163-182 | every legal RV32IM encoding is translated, to the template and parameters of the instruction the ISA decodes it to |
| Templates.RunLui | sandbox/translation.c:84-123 | lui loads the upper immediate, for every rd including x0 |
| Templates.RunAuipc | sandbox/translation.c:125-160 | auipc adds the upper immediate to the pc it was translated for |
| Templates.RunJal | sandbox/translate_unconditional_jump_intrs.c:9-50 | jal links, jumps to the baked target and keeps x0 zero |
| Templates.RunJalr | sandbox/translate_unconditional_jump_intrs.c:53-97 | jalr jumps to rs1 plus offset with bit 0 cleared, even when rd is rs1 |
| Templates.RunBranch | sandbox/translate_branch.c:9-272 | all six branches go to the baked target if the condition holds and to the next pc otherwise |
| Templates.RunLoad | sandbox/translate_memory_load.c:10-250 | loads sign- or zero-extend the low part that the memory call returned, whatever its upper part |
| Templates.RunStore | sandbox/translate_memory_store.c:11-147 | stores write the low bytes of rs2 and change nothing else, or end where no region is mapped |
| Templates.RunAlu | sandbox/translate_arithmetic.c:8-451 | the ten register-register operations for all operands and all aliasings of rd, rs1, rs2 and x0 |
| Templates.RunAluImm | sandbox/translate_arithmetic_immediate.c:10-375 | the nine register-immediate operations |
| Templates.RunMulhsu | sandbox/translate_multiplication_and_division.c:142-185 | the upper half of a signed by unsigned product, through one 64-bit signed multiplication |
| Templates.RunDiv | sandbox/translate_multiplication_and_division.c:188-243 | the ISA's quotient, all ones for a zero divisor, and a host fault exactly on overflow |
| Templates.RunRem | sandbox/translate_multiplication_and_division.c:245-288 | the ISA's remainder, and a host fault exactly on overflow or a zero divisor |
| Templates.RunDivu | sandbox/translate_multiplication_and_division.c:290-337 | the ISA's unsigned quotient, all ones for a zero divisor, never a fault |
| Templates.RunRemu | sandbox/translate_multiplication_and_division.c:339-381 | the ISA's unsigned remainder, and a host fault exactly on a zero divisor |
| Templates.RunMulDiv | sandbox/translate_multiplication_and_division.c:12-381 | all eight operations of sections 7.1 and 7.2, host faults included |
| Templates.DivisionsThatFault | sandbox/translate_multiplication_and_division.c:188-381 | operands for every fault of the host divider |
| Templates.RunBlock | sandbox/translation.h:133-145 | running any well-formed block from any host state has the effect of that block on the guest and on control |
| Templates.BlockMeansInstruction | sandbox/translation.h:210-214 | the block made for an instruction does what the ISA says of that instruction, or faults where the host divider does |
| Isa.SettledStepIsPlain | sandbox/translation.c:163-182 | where every image in view has the present word at the pc, a step of the reference machine is the step of the plain interpreter |
| Isa.EcallTakesAnyAnswer | sandbox/translate_privileged_instr.c:171-180 | from any state at an ecall the machine may take any value for a0 and any memory, whatever it took from the same state before |
| Isa.OnlyEcallAsks | sandbox/translate_privileged_instr.c:171-180 | what the plain interpreter does on any other instruction does not depend on the world |
| IsaLaws.UnsignedDivision | sandbox/translate_multiplication_and_division.c:290-381 | for a non-zero divisor: dividend is divisor times divu plus remu, and remu is below the divisor |
| IsaLaws.SignedDivision | sandbox/translate_multiplication_and_division.c:188-288 | off the overflow: signed dividend is divisor times div plus rem, rem is smaller than the divisor in absolute value and zero or of the sign of the dividend |
| IsaLaws.EdgesOfDivision | sandbox/translate_multiplication_and_division.c:188-381 | the results for a zero divisor and for the overflow, as numbers |
| IsaLaws.Multiplication | sandbox/translate_multiplication_and_division.c:12-185 | mul and each of mulh, mulhsu and mulhu are the two words of the whole product, for each choice of signs |
| IsaLaws.AluMeans | sandbox/translate_arithmetic.c:8-451 | addition, subtraction, comparisons and shifts in plain arithmetic: shifts are multiplications and divisions by powers of two, the arithmetic one of the signed value, rounding down |
| IsaLaws.BitwiseMeans | sandbox/translate_arithmetic.c:8-451 | bit i of and, or and xor, for every i; and plus or is the sum, and so is xor plus twice and |
| IsaLaws.SignedMeans | sandbox/translate_arithmetic.c:8-451 | the signed value of a word is the one number of the signed range that wraps to it |
| IsaLaws.Signed64Means | sandbox/translate_multiplication_and_division.c:142-288 | the same for 64 bits |
| IsaLaws.ReadIsLittleEndian | sandbox/app.c:44-66 | a wider read is its two halves, the lower one at the lower address |
| IsaLaws.ReadOverWrite | sandbox/app.c:68-88 | what was written is read back, as far as the size goes |
| IsaLaws.WriteIsLocal | sandbox/app.c:68-88 | a read outside the written range is unchanged |
| IsaLaws.AccessNeedsBytes | sandbox/app.c:44-88 | an access succeeds exactly if all its bytes are mapped |
| IsaLaws.LoadWidths | sandbox/translate_memory_load.c:10-250 | how many bytes each load reads |
| IsaLaws.ExtendMeans | sandbox/translate_memory_load.c:10-250 | lb and lh give the number of the signed byte or half-word range that the bytes stand for, the others the value itself |
| TranslationCache.ParamsRoundTrip | sandbox/translation.h:112-120 | parameters patched into the code are the parameters read back from it |
| TranslationCache.FetchBlock | sandbox/translation.h:101-130 | code of a block found anywhere in the cache executes as that block |
| TranslationCache.PatchOne | sandbox/translation.h:112-120 | patching one parameter of a stored block changes that parameter alone |
| TranslationCache.AppendKeepsShape | sandbox/translation.c:196-207 | appending the block for the next pc keeps every stored block intact and every fall-through chain continued |
| TranslationCache.JumperCloses | sandbox/translation.c:208-235 | appending the jumper ends the last open chain without touching the others |
| TranslationCache.EndIsClosed | sandbox/translation.c:208-235 | when a run ends every chain ends in a control block or a jumper, if and only if the run did not refill to its starting offset |
| TranslationCache.WhereRunFails | sandbox/translation.c:187-207 | a failing prefetch reaches, over translated instructions that neither end it nor were cached, one that it cannot translate |
| Engine.BlockIsStep | sandbox/translation.h:133-145 | a block translated from an image seen since the last fence.i is one step of the reference machine |
| Engine.Hart.Flush | sandbox/hart.c:87-96 | the index empties, the fill pointer returns to zero and the stale bytes stay |
| Engine.Hart.AddItem | sandbox/hart.c:113-150 | refused exactly for lack of room or of an entry; otherwise the bytes are spliced in and the map gains the pc |
| Engine.Hart.Patch | sandbox/translation.h:112-120 | the parameter loop turns the copied template into the code of the block |
| Engine.Hart.Commit | sandbox/translation.h:101-130 | with room for the block neither assertion fails, and the cache is the old one with the block appended |
| Engine.Hart.Prefetch | sandbox/translation.c:187-236 | it terminates within 512 mappings and the cache size; it dies exactly if its straight line reaches an instruction that is rejected; otherwise it indexes the guest's pc, keeps the cache invariant, and leaves all chains closed if and only if no jumper was missed; from an empty cache its fill is exact |
| Engine.Hart.StepBlock | sandbox/translate_fence.c:11-40 | one block is one step; fence.i flushes and leaves no chain open; a fall-through leaves the cache alone |
| Engine.Hart.Execute | sandbox/translation.c:239-261 | the jump into the cache never reaches stale bytes and comes back after a run of the reference machine of at least one step, of which only the last may ask the world |
| Engine.Hart.VmResume | sandbox/translation.c:238-261 | its search always succeeds; registers, pc and memory are those after one or more steps of the reference machine in the world of this resumption, of the plain interpreter where the code is settled; the life of the hart so far, in whatever worlds before, stays one run among interfering tasks; it ends while fetching exactly if the prefetch fails |
| Engine.Hart.Interfere | sandbox/vmm_sched.c:42-70 | another task's change of memory keeps the life of the hart a run of the machine |
| Engine.UntouchedLifeIsPlain | sandbox/translation.c:238-261 | a hart whose code nobody stores to lives, from its first state on, the life of a plain interpreter, each ecall answered anew, among interfering tasks |
| Engine.PlainRunIsDetermined | sandbox/translation.c:238-261 | the first state, the answers and the changes by others determine every state of a plain run |
| Engine.SettledRefusalIsPlain | sandbox/translation.c:238-261 | where the emulator ends on settled code the plain interpreter has an access fault, or the instruction is a division on which the host faults |
| MissedJumper.Reach | sandbox/translation.c:187-236 | a new hart with a program of 1024 instructions reaches, by one prefetch, a closed cache in which the next prefetch will miss its jumper |
| MissedJumper.Miss | sandbox/translation.c:208-235 | that prefetch flushes on the 512-entry limit, refills to the old offset and leaves its last chain open |
| IntrusiveList.List.Append | sandbox/list.c:7-19 | dies exactly on an attached element; otherwise the sequence gains the element at its end, links and ends consistent, unless it is already the only member, which becomes its own neighbour |
| IntrusiveList.List.Prepend | sandbox/list.c:21-33 | dies exactly on an attached element; otherwise the sequence gains the element at its front, unless it is already the only member, which becomes its own neighbour |
| IntrusiveList.List.Pop | sandbox/list.c:35-52 | the last element of the sequence is removed and detached |
| IntrusiveList.List.Fetch | sandbox/list.c:54-71 | the first element of the sequence is removed and detached |
| IntrusiveList.List.Delete | sandbox/list.c:73-105 | removes the element at its index and detaches it; dies exactly when it is not a member |
| IntrusiveList.List.Contains | sandbox/list.c:107-130 | the fast path for detached elements never changes the answer: membership |
| IntrusiveList.AppendTo | sandbox/list.c:7-19 | among many lists that share no element, an element in none of them is appended to one: no assertion fails and no other list changes |
| IntrusiveList.DeleteFrom | sandbox/list.c:73-105 | dies exactly on an element that is not in the list; otherwise it is afterwards in no list at all |
| IntrusiveList.FetchFrom | sandbox/list.c:54-71 | the first element of one list leaves it and is afterwards in no list at all |
| IntrusiveList.Sweep | sandbox/list.h:57-64 | a traversal that moves the visited element visits every original element once, in order; each of three lists ends as a filter of the original, all other lists of the heap are untouched, and it dies exactly if the visitor does |
| Scheduler.TrapRotates | sandbox/vmm_sched.c:42-70 | a trap dispatches the head of running, current, woken, in that order, and keeps the rest in order |
| Scheduler.TrapOrder | sandbox/vmm_sched.c:42-70 | the order of the tasks to run after a trap: those that were ready, then the caller if it still runs, then the woken in the order in which they went to sleep |
| Scheduler.TableEntries | sandbox/task_sched.c:19-37 | the twelve entries of the transition table |
| Scheduler.TrapKeepsPlacement | sandbox/task_sched.c:82-161 | after a trap every live task is in exactly one of current, running and blocking, in a state that fits, and exited ones are nowhere |
| Scheduler.IdleOnlyWhenNothingRuns | sandbox/vmm_sched.c:54-61 | the idle task is chosen if and only if no task is running |
| Scheduler.CloneKeepsInv | sandbox/task.c:277-302 | a clone keeps the kernel invariant |
| Scheduler.WakeAllAt | sandbox/wait_queue.c:44-55 | a wake-up changes exactly the queued tasks, each by one wake-up |
| Scheduler.ExitKeepsInv | sandbox/task.c:328-340 | an exit and the trap after it keep the kernel invariant: sleepers are those none of whose awaited children has exited |
| Scheduler.WakeNeverDies | sandbox/task.c:27-55 | whoever an exit wakes is in a state the wake-up has a case for |
| Scheduler.ScanFacts | sandbox/task.c:490-537 | the scan returns an exited registered child or waits only for live registered children |
| Scheduler.ScanMeans | sandbox/task.c:490-537 | the scan in terms of parents, thread groups and pids: what it answers, and that it makes entries with exactly the live children asked for before the first exited one |
| Scheduler.ResultMeans | sandbox/task.c:545-561 | the answer after a sleep: what had been found before it, else the first child with an entry that has exited |
| Scheduler.WaitKeepsInv | sandbox/task.c:474-571 | wait4 keeps the kernel invariant whether it returns or sleeps |
| Scheduler.ResumeKeepsInv | sandbox/task.c:545-571 | a woken wait4 returns the positive pid of an exited, registered child of its caller never returned before, and leaves its caller in no wait queue |
| SchedulerRuns.RunKeepsInv | sandbox/vmm_sched.c:42-70 | the kernel invariant holds in every state of every run from boot |
| SchedulerRuns.StepExists | sandbox/vmm_sched.c:29-41 | no run is ever stuck |
| SchedulerRuns.TransitionsAllowed | sandbox/task_sched.c:19-37 | every state change of every step is in the transition table |
| SchedulerRuns.WakesExactlyOnExit | sandbox/wait_queue.c:44-55 | a task blocked in wait4 becomes running exactly in the step in which a child on its wait list exits |
| SchedulerRuns.BlocksOnlyInWait | sandbox/task.c:540-543 | only a wait4 that sleeps blocks a task, and only its caller |
| SchedulerRuns.SleeperIsRegistered | sandbox/task.c:490-543 | a sleeping wait4 has an entry with every matching child before the first exited one, and is in the blocking list |
| SchedulerRuns.AnswerIsFresh | sandbox/task.c:545-571 | a positive answer of wait4 is a registered exited child, unregistered afterwards, with the caller in no queue |
| SchedulerRuns.ReapedAtMostOnce | sandbox/task.c:563-571 | over any run no pid is returned by wait4 twice |
| SchedulerRuns.ExitIsFinal | sandbox/task.c:328-340 | once exited, a task is never dispatched again and is in no list, in every later state |
| SchedulerRuns.IdleOnlyAtTheEnd | sandbox/vmm_sched.c:54-61 | no deadlock: a trap dispatches the idle task if and only if every task has exited |
| SchedulerRuns.WokenReturns | sandbox/task.c:539-571 | no lost wake-up, end to end: after the exit of an awaited child the blocked waiter is dispatched within as many traps as there are ready tasks, and its wait4 returns an exited child of its own |
| SchedulerRuns.StepAdvances | sandbox/task_sched.c:145-161 | a trap moves a ready task one place forward and no step moves it back |
| SchedulerRuns.DispatchedInTurn | sandbox/vmm_sched.c:42-70 | the task at index n of the running list is current after exactly n + 1 traps |
| WaitRuns.CloneIsChild | sandbox/task.c:169-183 | the clone is a new task, registered and ready; its parent is the caller; its thread group is the caller if it is a thread, and otherwise itself |
| WaitRuns.FamilyNeverChanges | sandbox/task.c:169-183 | parent and thread group of a task are the same in every later state of a run |
| WaitRuns.StateMoves | sandbox/task_sched.c:67-79 | the only changes of state: its own exit, its own sleep in wait4, and a wake-up by an exit of another task |
| WaitRuns.PromptAnswer | sandbox/task.c:490-537 | a wait4 that returns at once answers -1 exactly if no registered child is asked for (by pid, by thread group, or any), and a pid exactly if one that is asked for has exited, and then the first of those |
| WaitRuns.SleepsOnlyIfAsked | sandbox/task.c:526-543 | it sleeps exactly if it may and the first child that is asked for has not exited; never with WNOHANG |
| WaitRuns.SleeperAsked | sandbox/task.c:526-543 | every entry that a sleeping wait4 leaves behind is with a live child that it asked for |
| WaitRuns.LateAnswer | sandbox/task.c:545-571 | over a run: the answer of a wait4 that slept is an exited registered child that its hint asked for |
| WaitRuns.ClonerFindsItsChild | sandbox/task.c:490-537 | over a run: from a clone until that child is answered for, a wait4 of the cloner for any child never answers -1 |
| TaskSystem.System.TransitState | sandbox/task_sched.c:67-79 | stores the state and dies exactly when the table forbids the change |
| TaskSystem.System.ScheduleTask | sandbox/task_sched.c:82-104 | a task whose link is in no list is appended to the list of its state; dies exactly on a zombie |
| TaskSystem.System.ProcessBlockingList | sandbox/task_sched.c:106-129 | the traversal that removes what it visits is a three-way filter, with no assertion of the lists failing; it dies exactly if a zombie is in the list |
| TaskSystem.System.ProcessExitingList | sandbox/task_sched.c:131-143 | the exiting list is emptied and every link in it is loose again |
| TaskSystem.System.ProcessRunningList | sandbox/task_sched.c:145-161 | yields the first task that is running, rescheduling those before it; dies exactly if a zombie comes before it |
| TaskSystem.System.TrapHandler | sandbox/vmm_sched.c:42-70 | makes the trap step; in any state in which a run traps no assertion of the kernel or of its lists fails |
| TaskSystem.System.WakeUp | sandbox/wait_queue.c:44-55 | walks the queue and wakes every entry; dies exactly when an entry is in a state without a case |
| TaskSystem.System.DoExit | sandbox/task.c:328-340 | makes the exit step and the trap, and no assertion fails |
| TaskSystem.System.RegisterTask | sandbox/task.c:304-309 | a task whose registration is in no list becomes the last of the global task list, without a failing assertion |
| TaskSystem.System.CloneTask | sandbox/task.c:277-302 | makes the clone step, with a pid never used before, the caller as parent, the thread group that was asked for, and new links for both appends, so neither dies |
| TaskSystem.System.Start | sandbox/main.c:46-60 | leaves the boot state of the scheduler model |
| TaskSystem.System.AddWaitQueueEntry | sandbox/wait_queue.c:26-32 | an entry in no list joins the wait queue of the child, and the append does not die |
| TaskSystem.System.AddBlob | sandbox/task.c:526-535 | a new blob joins the local list and its entry the queue of the child, and both show in the kernel state |
| TaskSystem.System.ScanForChildren | sandbox/task.c:490-537 | the walk over the global task list, which makes blobs and queue entries while it goes, computes the scan and enters exactly the queues of its wait list, which are of live children asked for |
| TaskSystem.System.CallWait4 | sandbox/task.c:474-571 | makes the wait4 step up to its return or its sleep, and no assertion fails; what it returns at once is the answer that its arguments ask for, and with WNOHANG it always returns |
| TaskSystem.System.RemoveWaitQueueEntry | sandbox/wait_queue.c:35-42 | the entry leaves the queue, which loses its task and keeps the order of the others |
| TaskSystem.System.LeaveQueues | sandbox/task.c:545-561 | fetching every blob leaves every queue that was entered, and the result is the first exited child unless there was one before the sleep |
| TaskSystem.System.UnregisterTask | sandbox/task.c:312-319 | the registration leaves the global task list if it is there, and the delete does not die |
| TaskSystem.System.ResumeWait4 | sandbox/task.c:545-571 | makes the resumption step and returns an exited registered child of the caller, and no assertion fails |
| KernelRuns.Perform | sandbox/vmm_sched.c:42-70 | whatever the task on the processor does, the heap goes from a state of a run to the next one, and nothing dies |
| KernelRuns.Live | sandbox/main.c:46-60 | from an empty heap through boot and any events that the tasks offer: the states passed are a run of the scheduler model, and no assertion of the kernel or of its lists fails |
| Regions.TableSearch | sandbox/pm_region.c:26-70 | in a sorted disjoint table the comparator makes binary search conclusive for every address but the last |
| Regions.BubbleSort | sandbox/sort.h:13-28 | always a permutation; on disjoint regions it never dies and the result is sorted |
| Regions.TablesAreUnique | sandbox/sort.h:13-28 | a sorted disjoint table is determined by its regions |
| Regions.ChecksImplyFree | sandbox/pm_region.c:131-140 | the check of the lower end before and of all lower ends after the sort together exclude every overlap |
| AddressSpace.Space.Find | sandbox/pm_region.c:54-70 | equals a linear scan for every address but the last, which ends the process unless the table is empty |
| AddressSpace.Space.IsVmaEligible | sandbox/pm_region.c:74-90 | true exactly if the slot is in use and no other region starts strictly inside it |
| AddressSpace.Space.IsRangeEligible | sandbox/pm_region.c:92-106 | true exactly if no region meets the range |
| AddressSpace.Space.SearchFree | sandbox/pm_region.c:108-126 | the lower end of the highest gap above size plus a page, or there is none; its assertion fails exactly if that sum wraps and the gap ends in the first page |
| AddressSpace.Space.Register | sandbox/pm_region.c:128-141 | succeeds exactly if the region is non-empty, overlaps none and a slot is left; then the table is the old one with it in order |
| AddressSpace.Space.Unregister | sandbox/pm_region.c:143-158 | the table loses exactly that region |
| AddressSpace.Space.Munmap | sandbox/vfs.c:445-463 | removes a region exactly if it holds the address and has the given length, else changes nothing |
| AddressSpace.Space.Place | sandbox/vfs.c:384-412 | the rounded hint if its range is free, else the rounded end of the highest gap, for every hint and length |
| AddressSpace.Space.Mmap | sandbox/vfs.c:384-442 | each of its five endings exactly: invalid, out of memory, assertion failed, overrun, done; done is an aligned, zeroed region that overlaps none, and the table is the old one with it in order; a hint whose rounded range is clear is the address returned |
| AddressSpace.HighestGapIsTaken | sandbox/pm_region.c:108-126 | with no hint the range goes to the top of the highest gap that exceeds it by a page |
| AddressSpace.ChosenFits | sandbox/vfs.c:400-425 | the region at the chosen address is free unless the request is one that aborts or overruns, also when sums wrap |
| AddressSpace.AbortsOnlyOnWrap | sandbox/pm_region.c:108-141 | mmap fails an assertion only if the range of a hint wraps or the length is within a page of 2^32 |
| AddressSpace.WrappingRequestsAbort | sandbox/pm_region.c:108-141 | both kinds happen: a table with one region, and one request of each kind |
| AddressSpace.Space.HeapInit | sandbox/app.c:128-150 | succeeds exactly if the byte below the break is free; the heap is that byte, and the break is page aligned, above 15 and at most 16 pages past the program |
| AddressSpace.GrowKeepsTable | sandbox/syscall.c:60-65 | raising the break keeps the table sorted and disjoint if and only if no other region starts inside the new heap |
| AddressSpace.Space.Brk | sandbox/syscall.c:51-74 | the break never decreases, a rejected call changes nothing, an accepted one keeps disjointness and every byte below the old break |
| AddressSpace.InsertKeepsSlot | sandbox/pm_region.c:128-141 | a pointer into the table survives a registration if and only if the new region lies above |
| AddressSpace.RemoveKeepsSlot | sandbox/pm_region.c:143-158 | a pointer into the table survives a removal if and only if the removed region lies above |
| AddressSpace.Space.Serve | sandbox/syscall.c:51-74 | any run of mmap, munmap and brk keeps the table sorted and disjoint and every buffer as long as its region and used by it alone; with all changes above the break the heap pointer stays and the break never decreases |
| AddressSpace.LastAddressDies | sandbox/pm_region.c:26-70 | one region, and a search that ends the process |
| AddressSpace.TableOverflows | sandbox/pm_region.c:128-141 | 128 registrations that succeed, and one that writes past the table |
| GuestMemory.Load | sandbox/app.c:44-66 | an access of 1, 2, 4 or 8 bytes reads the bytes of the one region that holds it all; it finds nothing mapped, or runs past the end of a region, exactly when stated |
| GuestMemory.Store | sandbox/app.c:68-88 | an access of 1, 2, 4 or 8 bytes changes what is read at those addresses and nowhere else; when it does not hit a region is exact too |
| GuestMemory.LoadValue | sandbox/app.c:44-66 | a load is the read of the reference machine over the map of all bytes, if and only if that read succeeds and does not straddle two regions |
| GuestMemory.StoreValue | sandbox/app.c:68-88 | a store is the write of the reference machine over the map of all bytes, if and only if that write succeeds and does not straddle two regions |
| GuestMemory.SeamIsMissed | sandbox/app.c:44-66 | two adjacent regions, and a word that the reference machine reads and the emulator reads past the first buffer |
| ForkedMemory.Duplicate | sandbox/task.c:105-130 | dies exactly if some region has no buffer; otherwise the child reads the parent's byte at every address, through buffers that are all new, and has a heap pointer exactly if the parent's is on a region |
| ForkedMemory.ForkAndRun | sandbox/task.c:154-167 | a fork that copies is one of backed memory; after it, however stores interleave, each side sees its own and none of the other's |
| ForkedMemory.UncoveredStays | sandbox/task.c:154-167 | an address that no store of a side covers is, for that side, as it was at the fork |
| ForkedMemory.LastWriteStays | sandbox/task.c:154-167 | an address that some store of a side covers holds, for that side, the byte of the last of them |
| ForkedMemory.Populate | sandbox/app.c:175-218 | a program that is loaded, gets its heap and makes any mmap, munmap and brk calls meets what a fork relies on |
| ForkedMemory.LiveAndFork | sandbox/task.c:105-167 | from an empty address space through loading, any calls, a fork and any interleaving of stores, each side sees its own stores and none of the other's |
| ForkedMemory.EarlyForkDies | sandbox/task.c:117-122 | a fork right after the heap is set up copies from a null pointer |
| ForkedMemory.GetLinkedVm | sandbox/vm.h:91-119 | always terminates, at the owner, without tripping its assertion |
| ForkedMemory.CloneResolves | sandbox/task.c:158-245 | for memory, file system and files: a clone resolves to its parent's owner if the flag is set and to itself otherwise, and no other task's owner changes |
| PathNames.CanonicalizePathName | sandbox/vfs.c:24-89 | for every string of at most 510 characters the output is the fold of its components, within the index stack and the buffer |
| PathNames.CanonicalLeadsThere | sandbox/vfs.c:24-89 | the canonical path resolves to what the path resolves to |
| PathNames.OneComponent | sandbox/vfs.c:24-89 | one more component: an empty one or a dot stays, two dots go up and stop at the root, any other name goes down |
| PathNames.FirstComponent | sandbox/vfs.c:24-89 | the first character of a path counts as a slash |
| PathNames.RootForm | sandbox/vfs.c:24-89 | a path that leads to the root has the canonical form "/" if it ends in a slash and is empty otherwise |
| PathNames.AfterBlanksMeans | sandbox/vfs.c:126-129 | leading blanks, all of them and nothing else, are skipped |
| PathNames.ResolveIsProper | sandbox/vfs.c:24-89 | no empty name, "." or ".." is left |
| PathNames.Idempotent | sandbox/vfs.c:24-89 | canonicalising twice is canonicalising once |
| PathNames.GuestStaysUnderRoot | sandbox/vfs.c:142-149 | root followed by a canonical form that is empty or starts with a slash resolves to the root's components followed by the guest's |
| PathNames.RelativeStaysUnderRoot | sandbox/vfs.c:142-149 | root, working directory and any canonical relative path resolve to the components of the three in this order |
| PathNames.UnderRootIff | sandbox/vfs.c:126-149 | for every root: the host path starts with the components of the root if and only if the guest path is relative, or its canonical form is empty or starts with a slash, or the root does not end in a name |
| PathNames.SlashedRootConfines | sandbox/app.c:310-319 | a root that ends in a slash confines every guest path |
| PathNames.TwoBlanksLeaveRoot | sandbox/vfs.c:126-149 | two blanks in front of a slash lead next to the root |
| PathNames.ChdirKeepsCwd | sandbox/syscall.c:290-316 | every chdir leaves a working directory that is canonical and ends in a slash, as confinement needs |
| PathNames.ChdirLeadsThere | sandbox/syscall.c:290-316 | an absolute path leads where it says, a relative one where its words lead from the working directory |
| PathNames.HostPath | sandbox/vfs.c:120-149 | for every guest path, relative or with leading blanks, the path opened on the host is the canonical form of root, working directory if relative, and canonical guest path |
| InitialStack.EnvSetup | sandbox/app.c:224-307 | word by word from the new stack pointer up: the count, the pointers to the arguments, to the environment, at most 128 of each with a zero after each vector, and the auxiliary vector; each pointer leads to exactly its string; nothing outside the image changes |
| InitialStack.WordAtIsRead | sandbox/app.c:270-303 | a word of the image is what the guest reads there |
| InitialStack.PileBack | sandbox/app.c:248-266 | every pushed string is read back at the address noted for it |
| InitialStack.HeaderBack | sandbox/app.c:270-303 | the pushed words read back as the count, the two null-terminated vectors and the auxiliary vector |

## Left out

- Atomic instructions (opcode 0x2f): the translator reports them as not modelled, and a prefetch that meets one ends; LR/SC reservations carry no atomicity to prove.
- Reserved encodings: the reference machine may do anything on them, so what the lax decoder makes of them is not constrained; the plain interpreter has no step there.
- Misaligned-target exceptions and misaligned accesses: the emulator raises none, and the reference machine has none either.
- RunLoad: memory is one map from addresses to bytes, so a load across the seam of two adjacent regions gets the mapped bytes, while the source reads on past the first host buffer; `GuestMemory.LoadValue` states exactly when the two agree.
- RunStore: likewise for a store across a seam; `GuestMemory.StoreValue` states exactly when the two agree.
- Store: what a store past the end of a host buffer overwrites is not modelled; it is reported as `PastEnd`.
- Machine-mode CSRs, traps, interrupts, the TLB and the page walker: dead in application mode.
- The breakpoint and trace hooks compiled into debug templates.
- execve, signals, files and every other system call; an ecall gives any value for a0 and any memory, and no other register.
- The WUNTRACED option of wait4: the stopped and continued flags are never set.
- Wrap-around of the 32-bit pid counter: pids are unbounded, so the scheduler results are for runs of fewer than 2^31 clones.
- Host stacks: a task's saved processor state is the step it is in, so the assertion that a dispatched task has one is not modelled; `free` of a wait blob is not either.
- VmResume: requires `RunInArc`, a sufficient condition for the index to stay ordered (the pcs that the run may commit lie in the half-circle of those indexed since the last flush; nothing is asked of an empty cache or of a run that starts with a flush), and that the run does not miss its jumper, which is exact.
- Prefetch: requires `RunInArc` as well.
- The contents of a program's segments, which the loader reads from its file.
- Region flags, descriptions, callbacks and the stack pointer `vma_stack`, which goes stale when the heap is registered; mmap of a file.
- Paths of more than 510 characters and working directories of more than the field of the source holds: they overflow the source's buffers.
- HostPath: is for a relative path with AT_FDCWD; the source ends on any other directory descriptor.
- The host allocator: mmap and realloc may fail by choice, clone's buffers and preallocated regions always succeed.
