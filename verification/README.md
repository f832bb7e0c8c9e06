# Verification of the MOS kernel for RISC-V

A Dafny model of the parts of MOS where state is shared and updated in place: physical memory and
the Sv39 page tables, environments with the scheduler and IPC, copy-on-write fork, pipes, and the
blocks and names of the file system. `dafny verify dfyconfig.toml` checks all of it.

Addresses, counters and block numbers are natural numbers; 32-bit and 16-bit counters wrap where
the code lets them (`mkenvid`, `env_runs`, the int result of `sys_exofork`) and are bounded by a
precondition where the code relies on it (`pp_ref` below 65536). Flag bits and bitmap words are
bit-vectors, so that masks are the source's own operations. Clocks, devices and the outcome of
calls into code that is not modelled are parameters.

## Structure

| files | what they hold |
|---|---|
| Sv39, PhysMem, TableSteps, MapSteps, PmapSteps, UserSteps, Window, Teardown, Translate | page-table entries, frames with reference counts, the invariant, and what each step of the page-table code does to it |
| Pmap | the page-table code itself, on arrays of frames and counts |
| Hardware | the page walk of the machine on those tables: which accesses of user code go through |
| Queue | the linked lists of `include/queue.h`, pointer by pointer |
| Bitmap | bits in arrays of 32-bit words, for ASIDs and disk blocks |
| KernelState, Scheduling, Ipc | environments, `schedule` and IPC as a state machine; whole runs |
| EnvCalls | what the calls about environments give to the env that makes them |
| Kernel | the same code on the kernel's variables |
| Syscalls | the memory system calls, fork and exit, and the page-fault branch, over Kernel and Pmap together |
| CowFork | fork and the copy-on-write handler, one system call, store or copied byte at a time |
| PipeRing, PipeEnds, PipeRun | the ring buffer; who holds the ends of a pipe; a reader and a writer at work on both |
| FsBlocks, FileSystem | block ownership of the file server: what each operation does, and the code |
| StructFiles, FileServer | struct Files in the blocks of directories: making, filling and removing files |
| FsFormat | the image builder |
| Paths | directories and paths |
| ElfLoader | loading a program segment |

Code that updates variables is a class whose methods are proved against predicates or functions on
the state before and after; the laws are lemmas about those. Code that many processes execute
interleaved (fork, pipe close detection, runs of the scheduler) is a state machine over its atomic
steps, and the laws hold for every run.

## Where the code falls short of its description

Each of these is kept as the code has it, with the exact condition or a concrete case.

- `alloc_page` and `alloc_page_user` drop the count of the page that was mapped before they know that
  a new one can be had. On failure the reference counts are right exactly when nothing was mapped
  there (`AllocPage`, `AllocPageUser`, `SysMemAlloc`).
- `map_page_user` ignores the result of mapping a new level-0 table into the window. The user's view
  of its page table is lost exactly in the state `LosesWindow` (`MapPageUser`, `SysMemMap`, `SysIpcTrySend`).
- `env_setup_vm` ignores both results. With no frame free, `map_page` panics on the physical address 0 that
  `alloc_pgdir` has left; otherwise the window is there exactly if three frames were free (`EnvSetupVm`,
  `SysExofork`).
- `sys_set_env_status` keeps the kernel's invariant exactly when it neither stops the caller nor wakes
  an env that is blocked in `sys_ipc_recv` (`SetEnvStatusKeeps`).
- `sys_env_destroy` passes 1 where `envid2env` expects an env id, so that a parent cannot destroy its
  child although the description says so (`OnlySelfIsDestroyed`).
- Env ids start over after 2^21 - 1 allocations, with an id 0 (`IdsWrap`). Already from allocation 2^20 on the int
  result of `sys_exofork` is negative, and spawn takes it for an error (`ForkedIsFound`).
- A page fault on a store adds PTE_W and nothing else, so that a store to a page without PTE_R or PTE_U faults for ever;
  a fetch from an unmapped page takes two faults, since the new page may not be executed (`RetryGoesThrough`,
  `FetchTakesTwoFaults`).
- When an env stops itself with `sys_set_env_status`, the invariant is broken until the next call of `schedule`, which
  restores it if another env is runnable and panics if not (`StoppedThenScheduled`).
- A second `TAILQ_REMOVE` of an element is harmless exactly if the element names one place of the list, or two
  elements neither of which is in the list any more. Otherwise it cuts out what lies between the two places, or leaves
  a circle when they have changed places, or makes the list go on with an element that has left it, or breaks the
  pointers backwards (`RemoveStale`, `StaleEffects`, with inputs in `RemoveAroundInsert` and `RemoveAroundRemove`).
- fork reads the flags of a page and maps it in two steps, and in between the system call wrapper stores to its
  frame on the stack. If the first mapped page that fork comes to is a copy-on-write page of those frames, parent and
  child share a page that the parent can write (`UnsafeForkLeaks`); if not, the isolation holds in every run
  (`Isolation`, `ChildStartsWith`). The linker script puts the program text below the stack (`user/user.lds`), so
  programs meet the condition.
- `pipe_read` tests for an empty buffer before it asks whether the pipe is closed, and can report the end of
  the stream with data buffered, exactly if something was written in between (`EndOfStream`, `EndOfStreamIf`, with a
  run in `EarlyEndOfFile`). With two or more readers, one can pass the test on a byte that another one takes; then it
  takes a stale byte, and the empty buffer looks full (`SecondReader`, `ServedMeans`).
- A byte move of a pipe interrupted before its index wrap lets the other side read a byte that was not written,
  exactly if it is the move of the last place of the buffer (`SplitWrapReadsStaleByte`). fork maps descriptor pages
  before data pages; in the middle of that, an open pipe looks closed exactly if as many descriptors lack their data
  page as there are holders of the other end and half-open descriptors (`PartForkCheck`, with an input in
  `ForkFdFirst`).
- `file_truncate` loses blocks exactly if the new size is less than ten blocks and the indirect block names a block
  that begins behind the old size of the file (`TruncateConserves`).
- `alloc_block` does not clear a block that is in the cache, so a new indirect block can hold stale
  block numbers. The ownership survives exactly if those are blocks of their own: in range, used, in no slot,
  each named once (`StaleIndirectBlock`); likewise for the struct Files of a new directory block
  (`AttachKeeps`).
- `file_remove` does not look whether a directory is empty. It loses no block exactly if no file in the
  directory has one, and the removed file has none beyond its size (`RemoveConserves`).
- `dir_alloc_file` succeeds exactly if the block where its search ends is there or fits on the disk and in memory. If
  that is the block behind the last, the directory keeps its new size even when it fails; in a directory
  without holes it fails in no other case (`DirAllocFile`, `WithoutHoles`).
- `get_file` lets a name of MAXNAMELEN bytes through, for which its buffer has no room left for the final
  zero; `walk_path` does not. `walk_path` finds a file exactly if `get_file` does and no name on the way is
  that long (`GetFileAgrees`). Such a name fills `f_name` without a zero byte and is followed by a zero byte of
  `f_size` (`LongestName`); `file_create` makes none (`CreatedIsShort`), the image builder copies names
  unchecked.
- `elf_load_seg_64` calls the mapper once per page exactly under the condition of `OncePerPage`; a
  short segment that starts inside a page can lose its last page (`ShortFileReachesEnd`,
  `LastPageMissed`).
- `fd_alloc` never gives out the last descriptor number (`FdAlloc`).

## Model

| member | source | states |
|---|---|---|
| Sv39.StoreThenDecode | include/asm/sv39.h:52-54 | an entry stored with PA2PTE and flags gives back the page's address and the flags, losing only the offset (section 4.3.2 of the RISC-V Privileged Architecture) |
| Sv39.StoredEntry | include/asm/sv39.h:52-54 | the word that the mapping calls store for a frame and some permissions is the entry of the model; PTE2PA gives back the frame and PTE2PERM the permissions with PTE_V |
| Sv39.VpnsOfAddress | include/asm/sv39.h:48-50 | the three table indices and the offset are recovered from an address put together from them |
| Sv39.AddressOfVpns | include/asm/sv39.h:38-50 | every 39-bit address is the sum of its own indices and offset |
| Sv39.WindowGeometry | kern/pmap.c:1561-1755 | for every user address the window pages of its level-0 table, its level-1 table and the root lie at (3,i,j), (3,3,i) and (3,3,3), so the three regions never collide |
| Sv39.WindowReads | user/include/lib.h:17-20 | pt0, pt1 and pt2 of a user address point into those pages, at the index of the entry they look for |
| PhysMem.Referenced | kern/pmap.c:118-150 | a frame that a counted slot references has a positive count and is not on the free list |
| PhysMem.Unreferenced | kern/pmap.c:118-150 | a frame with count zero is referenced from no counted slot |
| PhysMem.DropCount | kern/pmap.c:1421-1427 | --pp_ref and page_free keep counts and free list right while the slot is stale, and move no target |
| PhysMem.AddCount | kern/pmap.c:1466-1468 | pp_ref++ makes a linked slot counted, and a pending frame used |
| TableSteps.TakeFrameStep | kern/pmap.c:118-136 | page_alloc gives a cleared frame that no slot references; the free list loses exactly it, and no translation changes |
| TableSteps.WriteLeafStep | kern/pmap.c:1466-1468 | writing one leaf entry changes the target and the page of that leaf only |
| MapSteps.NewLow | kern/pmap.c:1457-1462 | linking a new level-0 table keeps the invariant and maps and unmaps no page |
| MapSteps.NewMid | kern/pmap.c:1450-1455 | linking a new level-1 table keeps the invariant and maps and unmaps no page |
| MapSteps.NewRoot | kern/pmap.c:1831-1837 | a new root keeps the invariant and maps and unmaps no page |
| MapSteps.PointLeaf | kern/pmap.c:1551-1556 | pointing a leaf at a frame in use and raising its count keeps the invariant; exactly that page changes |
| MapSteps.FillLeaf | kern/pmap.c:1464-1468 | a leaf filled with a new frame: count one, zero content, referenced from nowhere else before |
| MapSteps.ClearLeaf | kern/pmap.c:1778-1789 | clearing a released leaf restores the full invariant and removes exactly that page |
| MapSteps.StaleLeafIsMiscounted | kern/pmap.c:1421-1427 | a leaf that still names a frame whose count was dropped breaks the count invariant |
| Window.WindowShowsTheWalk | user/include/lib.h:17-20 | for every user address is_mapped and pt0 read through the window never fault and return exactly the entry the kernel walk finds |
| Window.WindowCompleted | kern/pmap.c:1629-1640 | mapping a new table into its window page makes the window complete again |
| Window.WindowIncomplete | kern/pmap.c:1734-1743 | a new table that stays unmapped leaves the window incomplete |
| Hardware.TablesArePointers | kern/pmap.c:1450-1462 | every valid entry of a root or level-1 table has none of PTE_R, PTE_W and PTE_X, so the machine takes it for a pointer (section 4.3.2) |
| Hardware.HardwareAgrees | kern/pmap.c:1285-1326 | the walk of the machine finds the entry that the walk of get_pa finds, and faults exactly if there is none or its flags make no leaf |
| Hardware.AccessAgrees | kern/pmap.c:1285-1353 | an access of user code goes through exactly if get_perm shows a leaf with PTE_U and the flag for the access, and then to the address that get_pa computes |
| Hardware.UserLoadIsAccess | user/include/lib.h:17-20 | the loads of WindowShowsTheWalk are loads of the machine |
| Hardware.WindowIsReadOnly | user/include/lib.h:17-20 | a store of user code to pt0, pt1 or pt2 of a user address faults |
| Translate.MapThenTranslate | kern/pmap.c:1476-1559 | after map_page the walk returns pa's frame plus va's offset for that page, with the permissions asked for and PTE_V; address and flags of every other page of every directory are as before |
| Translate.AllocThenTranslate | kern/pmap.c:1399-1474 | after alloc_page the page is a cleared frame with count one, with the permissions asked for and PTE_V; every other page is as before |
| Translate.UnmapThenTranslate | kern/pmap.c:1757-1795 | unmap_page removes exactly one page from the map |
| Translate.MapThenUnmap | kern/pmap.c:1476-1795 | mapping and unmapping a free page restores the whole map |
| Translate.FreshPageIsPrivate | kern/pmap.c:1399-1474 | the frame of a page just allocated is referenced from no other slot |
| Translate.BootInvariant | kern/pmap.c:25-53 | after page_init the invariant holds and nothing is mapped |
| Teardown.DestroyedCounts | kern/pmap.c:1839-1908 | destroying a directory lowers each count by exactly the references the directory held, and frees exactly the frames that reach zero, once each |
| Teardown.DestroyedKeepsWindows | kern/pmap.c:1839-1908 | the windows of all other directories stay as they are |
| Teardown.DestroyedKeepsUserData | kern/pmap.c:1839-1908 | user pages of the other directories stay disjoint from tables |
| Teardown.PassedTableIsEmpty | kern/pmap.c:1851-1893 | when the loops release a table none of its entries is valid any more |
| Pmap.PhysicalMemory.constructor | kern/pmap.c:25-53 | page_init: boot frames have count one, the others are on the free list once each, and the invariant holds |
| Pmap.PhysicalMemory.PageAlloc | kern/pmap.c:118-136 | takes the first free frame and clears it, or reports E_NO_MEM and changes nothing |
| Pmap.PhysicalMemory.PageFree | kern/pmap.c:144-150 | puts a frame with count zero at the head of the free list |
| Pmap.PhysicalMemory.Release | kern/pmap.c:1421-1427 | drops a count and frees the frame at zero |
| Pmap.PhysicalMemory.Retain | kern/pmap.c:1468-1468 | raises a 16-bit count that has room |
| Pmap.PhysicalMemory.CreateRoot | kern/pmap.c:1831-1837 | a new root, exactly if a frame is free |
| Pmap.PhysicalMemory.CreateMid | kern/pmap.c:1450-1455 | a new level-1 table, exactly if a frame is free |
| Pmap.PhysicalMemory.CreateLow | kern/pmap.c:1457-1462 | a new level-0 table, exactly if a frame is free |
| Pmap.PhysicalMemory.Descend | kern/pmap.c:1408-1462 | the walk of the mapping calls: it succeeds exactly if the missing tables fit in the free frames, keeps the invariant either way and changes no page |
| Pmap.PhysicalMemory.Walk | kern/pmap.c:1285-1326 | the walk finds exactly the page of the map |
| Pmap.PhysicalMemory.GetPa | kern/pmap.c:1285-1326 | the translated address, or all ones where nothing is mapped |
| Pmap.PhysicalMemory.GetPerm | kern/pmap.c:1328-1353 | the flags of the page, or all ones where nothing is mapped |
| Pmap.PhysicalMemory.IsMappedPage | kern/pmap.c:1797-1829 | true exactly where the map has a page |
| Pmap.PhysicalMemory.AllocPage | kern/pmap.c:1399-1474 | success exactly if there are frames enough; it maps one cleared frame with no other reference, with flags perm and PTE_V, changes no other page and keeps counts and free list; on failure nothing is mapped, and the counts are right iff no page was mapped there |
| Pmap.PhysicalMemory.MapPage | kern/pmap.c:1476-1559 | success exactly if the missing tables fit; exactly the page at va changes, to the frame of pa with flags perm and PTE_V, the counts stay right, data stays disjoint from tables |
| Pmap.PhysicalMemory.UnmapPage | kern/pmap.c:1757-1795 | exactly the page at va goes; counts and free list stay right |
| Pmap.PhysicalMemory.DescendUser | kern/pmap.c:1574-1640 | the walk of the user calls, with the window kept up to date unless LosesWindow holds |
| Pmap.PhysicalMemory.AllocPageUser | kern/pmap.c:1561-1660 | success exactly if the free frames and the one that the old page gives back exceed those for the missing tables; then a cleared page of its own is at va, with flags perm and PTE_V, and the windows of the directory and of all others are right; on failure no page changes, the window is lost iff LosesWindow held, and the counts are right iff no page was mapped there |
| Pmap.PhysicalMemory.MapPageUser | kern/pmap.c:1662-1755 | as map_page for a frame that is no table, with flags perm and PTE_V; whether it succeeds or not, the window stays right iff LosesWindow does not hold, and no other window changes |
| Pmap.PhysicalMemory.UnmapPageUser | kern/pmap.c:1757-1795 | unmapping a user page keeps every window |
| Pmap.PhysicalMemory.EnvSetupVm | kern/env.c:268-322 | panics iff no frame is free; otherwise a new directory, with the entry for the envs and pages arrays, whose window is right iff three frames were free; no other directory or window changes |
| Pmap.PhysicalMemory.AliasKernel | kern/syscall_all.c:374-375 | the two entries of the child's root are those of the template directory; no counted target and no page changes |
| Pmap.PhysicalMemory.DestroyPgdir | kern/pmap.c:1839-1908 | the triple loop: the directory and all it mapped are gone, nothing else changes, the invariant holds, and no table is read or written after it was freed |
| Queue.TailQueue.InsertHead | include/queue.h:193-201 | the element comes first; forward and backward pointers spell the new sequence |
| Queue.TailQueue.InsertTail | include/queue.h:203-209 | the element comes last |
| Queue.TailQueue.InsertAfter | include/queue.h:211-219 | the element follows the given one |
| Queue.TailQueue.InsertBefore | include/queue.h:221-227 | the element precedes the given one |
| Queue.TailQueue.Remove | include/queue.h:229-236 | the element leaves the sequence; removing it again with no change in between changes nothing |
| Queue.TailQueue.RemoveStale | include/queue.h:229-236 | removing an element that is not in the list leaves the pointers of StaleEffects; they still spell the list iff the element names one place of it, or two elements outside; what lies between two places is cut out |
| Queue.StaleEffects | include/queue.h:229-236 | what the pointers spell after such a removal, for any two nodes named: the shortened list, no list at all, a list that goes on with an element from outside, or no consistent list |
| Queue.TailQueue.RemoveAroundInsert | include/queue.h:203-236 | an input: a second removal after an insertion takes out the inserted element |
| Queue.TailQueue.RemoveAroundRemove | include/queue.h:229-236 | an input: a second removal after the removal of the next element makes the list go on with that one |
| Queue.List.InsertHead | include/queue.h:143-149 | the element comes first |
| Queue.List.InsertAfter | include/queue.h:115-124 | the element follows the given one |
| Queue.List.InsertBefore | include/queue.h:131-137 | the element precedes the given one |
| Queue.List.Remove | include/queue.h:157-162 | the element leaves the sequence; removing it again changes nothing |
| Queue.ShapeAfterInsert | include/queue.h:203-227 | redirecting the fields around a position to a new element puts it there, with consistent back-pointers |
| Queue.ShapeAfterRemove | include/queue.h:229-236 | joining the neighbours of an element takes it out, and it still names the gap it left |
| Bitmap.BitWrites | kern/env.c:35-61 | setting or clearing one bit of a bitmap of 32-bit words changes that bit and no other |
| KernelState.IdsAreDistinct | kern/env.c:72-75 | the ids of the first 2^21 - 1 allocations are distinct and none is 0 |
| KernelState.IdsWrap | kern/env.c:72-75 | the ids then start over, with an id 0 |
| KernelState.IdParts | kern/env.c:72-75 | below that limit an id tells its allocation number and its env |
| KernelState.IdFindsEnv | kern/env.c:90-126 | envid2env maps the id of every live env back to it, and no two live envs share an id |
| KernelState.LookupFindsLive | kern/env.c:90-126 | envid2env returns live envs only, with the id asked for, and with checkperm only the caller or a child (both directions in FoundIff) |
| KernelState.ScheduleKeeps | kern/sched.c:39-88 | schedule panics iff no env is runnable, and otherwise keeps the invariant and runs an env (which one, and with which count: TickGoesOn, SliceEnds, FirstIsPicked) |
| KernelState.PickKeeps | kern/sched.c:63-76 | starting the list head keeps the invariant; the assertion of env_run holds |
| KernelState.AllocGives | kern/env.c:343-389 | env_alloc takes the first free env and the first free ASID, or fails and keeps the invariant |
| KernelState.ExoforkKeeps | kern/syscall_all.c:325-409 | sys_exofork keeps the invariant |
| KernelState.EnvCreateKeeps | kern/env.c:515-551 | env_create keeps the invariant |
| KernelState.EnvFreeKeeps | kern/env.c:556-612 | env_free keeps the invariant |
| KernelState.EnvDestroyKeeps | kern/env.c:617-631 | destroying an env and scheduling keeps the invariant |
| KernelState.OnlySelfIsDestroyed | kern/syscall_all.c:115-126 | sys_env_destroy finds the caller or nothing |
| KernelState.IpcRecvKeeps | kern/syscall_all.c:506-529 | blocking in sys_ipc_recv keeps the invariant |
| KernelState.BlockedThenPicked | kern/syscall_all.c:523-528 | the second removal of curenv, by schedule, changes nothing |
| KernelState.IpcTrySendKeeps | kern/syscall_all.c:547-604 | sys_ipc_try_send keeps the invariant |
| KernelState.SetEnvStatusKeeps | kern/syscall_all.c:423-447 | sys_set_env_status keeps the invariant iff it neither stops the caller nor wakes an env blocked in sys_ipc_recv |
| KernelState.Removed | include/queue.h:229-236 | removal from a list without duplicates takes out exactly that element |
| EnvCalls.RemovedAt | include/queue.h:229-236 | what is before and behind it stays in order |
| EnvCalls.FoundIff | kern/env.c:90-126 | envid2env finds an env by an id iff it is live and has that id, and no permission is asked for, or it is the caller, or a child of the env that the permission names; 0 is the caller |
| EnvCalls.ForkGives | kern/syscall_all.c:325-409 | sys_exofork succeeds iff an env and an ASID are free; the child is stopped, with a new id and ASID, the caller as parent, the caller's priority and no runs; the result is its id as int; no other env, no list of runnable envs and no slice changes |
| EnvCalls.ForkedIsFound | kern/syscall_all.c:325-409 | the id it returns finds the child for the caller; it is never 0, and positive iff the allocation number is below 2^20 |
| EnvCalls.ChildIsStarted | user/lib/fork.c:195-198 | sys_set_env_status(id, ENV_RUNNABLE) with that id returns 0, makes the child runnable and puts it last in the list |
| EnvCalls.StatusGives | kern/syscall_all.c:423-447 | exactly the caller and its children can be set; only the status and the list change: the env is put last, or taken out of its place, or left where it is |
| EnvCalls.StatusRefused | kern/syscall_all.c:423-447 | an id that no live env has is refused |
| EnvCalls.SendGives | kern/syscall_all.c:547-604 | a send to a waiting env stores the value, the sender's id and the permissions with PTE_V, wakes the env and puts it last in the list; any other send changes nothing and says why |
| EnvCalls.SendRefused | kern/syscall_all.c:547-604 | a send to an id that no live env has is refused |
| EnvCalls.ReceiveGives | kern/syscall_all.c:506-529 | a receive with a good address blocks the caller, which leaves the list, and the next env gets the CPU with all its slices; it panics iff there is none |
| EnvCalls.ExitGives | kern/env.c:556-631 | sys_env_destroy on the caller makes it free, first in the free list, gives back its ASID, and the next env gets the CPU |
| EnvCalls.CreateGives | kern/env.c:515-551 | env_create makes a runnable env of the given priority, without a parent, first in the list |
| EnvCalls.StoppedThenScheduled | kern/sched.c:77-86 | an env that stops itself breaks the invariant until the next call of schedule, which goes on with the next env and restores it, or panics iff there is none |
| Scheduling.StepKeeps | kern/syscall_all.c:96-604 | every kernel entry keeps the invariant |
| Scheduling.BoundedWaiting | kern/sched.c:39-88 | in every run, an env that stays runnable is picked at the latest by the call of schedule numbered by the head's remaining count plus the priorities of the envs between |
| Scheduling.ScheduleWaits | kern/sched.c:39-88 | each call of schedule picks the env or lowers that bound |
| Scheduling.OthersWait | kern/syscall_all.c:325-604 | no other system call raises that bound |
| Scheduling.SlicesInARow | kern/sched.c:60-86 | no env gets more than env_pri slices in a row while another is runnable, whatever it does |
| Scheduling.TickGoesOn | kern/sched.c:60-86 | a timer interrupt while curenv has slices left: curenv goes on with one slice less and a run more, and nothing else changes |
| Scheduling.SliceEnds | kern/sched.c:60-76 | at the last slice, or on a yield, curenv goes to the end of the list and the head of what is left gets the CPU with env_pri slices; that is curenv iff no other env is runnable |
| Scheduling.FirstIsPicked | kern/sched.c:69-76 | without a curenv the head of the list gets the CPU with env_pri slices |
| Scheduling.ExactSlices | kern/sched.c:39-88 | in every run, an env that has n slices and neither yields nor blocks nor exits keeps the CPU for n - 1 ticks and loses it at the n-th, if another env is runnable |
| Ipc.ExactlyOnce | user/lib/ipc.c:12-39 | over every run the messages (sender, value, permissions) an env has received are those that passed the env_ipc_recving check, in order, with at most the last one still to be read; none is lost, doubled or overwritten |
| Ipc.SystemStepKeeps | kern/syscall_all.c:506-604 | every kernel entry and every read of the library keeps the relation between what was accepted and what was received |
| Ipc.AcceptedGrows | kern/syscall_all.c:565-579 | a send that finds its target receiving adds one message, and nothing else adds one |
| Ipc.ReadsDeliver | user/lib/ipc.c:24-39 | an env that runs again after sys_ipc_recv can read the three fields, and has then received all that was accepted for it |
| Kernel.KernelData.EnvInit | kern/env.c:164-263 | all envs are free and in array order on the free list, ASID 0 is taken, the invariant holds |
| Kernel.KernelData.AsidAlloc | kern/env.c:35-47 | takes the first clear bit of the bitmap |
| Kernel.KernelData.AsidFree | kern/env.c:57-61 | clears one bit |
| Kernel.KernelData.MkEnvid | kern/env.c:72-75 | the next id, in 32-bit arithmetic |
| Kernel.KernelData.Envid2env | kern/env.c:90-126 | finds what EnvId2Env says, for which FoundIff holds |
| Kernel.KernelData.AllocEnv | kern/env.c:343-389 | does what EnvAlloc says, for which AllocGives holds |
| Kernel.KernelData.CreateEnv | kern/env.c:515-551 | the new env is runnable and the list head, as CreateGives says; the invariant holds |
| Kernel.KernelData.FreeEnv | kern/env.c:556-612 | does what EnvFree says, for which EnvFreeKeeps and ExitGives hold |
| Kernel.KernelData.RunEnv | kern/env.c:670-685 | makes a runnable env curenv and counts the run; fails on any other |
| Kernel.KernelData.DoSchedule | kern/sched.c:39-88 | does what Schedule says, for which TickGoesOn, SliceEnds, FirstIsPicked and StoppedThenScheduled hold |
| Kernel.KernelData.Tick | kern/sched.c:39-88 | a step of the state machine that keeps the invariant, and panics iff no env is runnable; what it leaves is in TickGoesOn, SliceEnds and FirstIsPicked |
| Kernel.KernelData.SysDestroy | kern/syscall_all.c:115-126 | a step of the state machine that keeps the invariant; refused iff the id is neither 0 nor the caller's |
| Kernel.KernelData.SysExofork | kern/syscall_all.c:325-409 | a step of the state machine that keeps the invariant, for which ForkGives and ForkedIsFound hold |
| Kernel.KernelData.SysSetEnvStatus | kern/syscall_all.c:423-447 | does what SetEnvStatus says, for which StatusGives and StatusRefused hold, and keeps the invariant within its scope |
| Kernel.KernelData.SysIpcRecv | kern/syscall_all.c:506-529 | a step of the state machine that keeps the invariant, for which ReceiveGives holds; returns only for an illegal address |
| Kernel.KernelData.SysIpcTrySend | kern/syscall_all.c:547-604 | a step of the state machine that keeps the invariant, for which SendGives and SendRefused hold |
| Syscalls.Machine.SysMemAlloc | kern/syscall_all.c:180-206 | checks address and env; succeeds exactly if the frames suffice; then a fresh cleared page of its own is at va, with flags perm and PTE_V, every window right, user pages disjoint from tables; on failure all is in order iff no page was mapped there and the window is not lost |
| Syscalls.Machine.SysMemMap | kern/syscall_all.c:222-279 | on success the target's page is the source's frame with flags perm and PTE_V and nothing else changes, on failure no page changes; in both cases every window stays right iff LosesWindow does not hold |
| Syscalls.Machine.SysMemUnmap | kern/syscall_all.c:291-309 | the page goes, every window stays right |
| Syscalls.Machine.SysIpcTrySend | kern/syscall_all.c:547-604 | the message is delivered even if the page is not there or cannot be mapped; if there is a page to map it is that of sys_mem_map, from the sender to the address the receiver asked for, and the invariant of the machine holds afterwards iff the receiver's window is not lost |
| Syscalls.Machine.SysExofork | kern/syscall_all.c:325-409 | the kernel data changes as Exofork says; panics iff no frame is free for the directory; the child's root has the two template entries; the invariant of kernel and memory together holds afterwards iff three frames were free |
| Syscalls.Machine.SysEnvDestroy | kern/env.c:556-631 | directory and env go together, the kernel data as in ExitGives; every other env keeps its page table and its view of it |
| Syscalls.UserStoreKeepsTables | user/include/lib.h:17-20 | a store of user code through a mapped page changes no table, no translation, no count and no window |
| Syscalls.Machine.PageFault | kern/exception.c:81-143 | which of the four treatments a fault below UTOP gets, and what it does to the page table |
| Syscalls.RetryGoesThrough | kern/exception.c:87-141 | the access that faulted goes through afterwards iff it got a new page and is no fetch, or the page is the user's and its old flags with the new one make a leaf: a store needs PTE_R to be there, a fetch PTE_R only with PTE_W |
| Syscalls.FetchTakesTwoFaults | kern/exception.c:94-141 | a fetch from an unmapped page goes through after a second fault |
| Syscalls.UserPage | kern/syscall_all.c:250-278 | the address that get_pa finds for a mapped user page is in RAM, in use and no table, as map_page_user needs |
| CowFork.StepRefines | user/lib/fork.c:16-201 | every store, system call and copied byte of fork and cow_entry changes the views of all pages of all envs exactly as private memories would, and keeps the invariant (that all pages are copied before the child starts is ForkCopiesAll) |
| CowFork.NeverInGap | user/lib/fork.c:86-125 | the stores that fork makes between reading the flags of a page and mapping it never go to that page while it is copy-on-write |
| CowFork.Isolation | user/lib/fork.c:16-201 | over every run, with forks that meet ForkSafe, the private memory of a started env is what it was with its own stores applied |
| CowFork.UnsafeForkLeaks | user/lib/fork.c:96-125 | wherever a fork does not meet it, there is a run, of stores of fork itself, the handler and fork, after which the parent's next store shows in a private page of the child |
| CowFork.StartIsSafe | kern/env.c:515-551 | a state with a frame of its own behind every page, and no env in fork or cow_entry, satisfies the invariant |
| CowFork.ChildStartsWith | user/lib/fork.c:115-198 | over every run from the moment the parent's page lost PTE_W, or was mapped without it, to the start of the child, the child's page has the content of that moment, whatever all envs do |
| CowFork.ForkCopiesAll | user/lib/fork.c:177-198 | over every run from sys_exofork to the start of the child: every page from UTEMP to USTACKTOP that the parent had at sys_exofork was copied once in between, and the child starts with it, with the content that the parent saw there at that moment, the same frame, and the flags of a child: without PTE_W and with PTE_COW if it was private and writable, unchanged otherwise |
| CowFork.ForkGoesOn | user/lib/fork.c:96-198 | in every reachable state fork goes on: it reads a page that is mapped and skips one that is not, maps what it has read, and starts the child after the last page, provided that the pages of its frames are writable when it maps |
| CowFork.DupRemapNotes | user/lib/fork.c:117-119 | when the parent loses PTE_W the child's page gets the content of that moment |
| CowFork.DupMapNotes | user/lib/fork.c:115-122 | mapping into the child: pending while the parent can still write, else the parent's view; library pages stay the same frame |
| CowFork.CowMapNotes | user/lib/fork.c:57-63 | the handler's copy replaces the page by the same bytes in a frame of its own |
| CowFork.StoreRefines | kern/exception.c:87-134 | a store changes the storing env's page only; on a copy-on-write page it only enters the handler |
| CowFork.ChildIsComplete | user/lib/fork.c:195-198 | when the child is started none of its pages depends on the parent any more |
| CowFork.GapBreaksIsolation | user/lib/fork.c:96-125 | once fork has read copy-on-write flags of a page of its own frames, its stores make the handler replace the page, and mapping with the old flags makes the parent's next store show in the child |
| CowFork.Flags | user/lib/fork.c:44-45 | what the flag arithmetic of duppage and cow_entry makes of writable, copy-on-write and library pages |
| CowFork.OtherFlagsStay | user/lib/fork.c:44-119 | duppage changes no flag but PTE_W and PTE_COW; cow_entry sets PTE_R, PTE_W and PTE_U, clears PTE_COW and changes no other |
| PipeRing.PutAppends | user/lib/pipe.c:210-213 | a byte written in a buffer that is not full is appended to its content |
| PipeRing.TakeDropsFirst | user/lib/pipe.c:164-167 | a byte read is the first of the content |
| PipeRing.BufferedBytes | user/lib/pipe.c:157-203 | the waiting conditions hold exactly for no byte and for 31 bytes |
| PipeRing.Pipe.Write | user/lib/pipe.c:186-216 | up to the end or the point where it must wait, the bytes are appended in order |
| PipeRing.Pipe.Read | user/lib/pipe.c:141-170 | up to the end or the point where it must wait, the first bytes are taken in order |
| PipeRing.SplitWrapReadsStaleByte | user/lib/pipe.c:210-213 | a write interrupted before its wrap makes a reader find a byte more than there is iff it goes to the last place; the byte is a stale one, and up to it everything is as after a whole write |
| PipeRun.StepKeeps | user/lib/pipe.c:141-221 | with one reader and one writer, tests, moves and checks interleaved with each other and with all that other processes do to descriptors: a passed test stays true until the move, nothing is lost or reordered, and a side that was told closed has no other end left |
| PipeRun.Fifo | user/lib/pipe.c:141-221 | in every such run the bytes read and then those buffered are the bytes written, in order; the indices stay in range, at most 31 bytes are buffered |
| PipeRun.EndOfStream | user/lib/pipe.c:157-159 | once pipe_read has come back because of a closed pipe, nobody holds the write end, and what is left is exactly what was written since its test for an empty buffer; the stream was read to its end iff that is nothing |
| PipeRun.EndOfStreamIf | user/lib/pipe.c:157-159 | the same as a condition on the run: the stream was read to its end iff no byte is written between the last test for an empty buffer and the return |
| PipeRun.ReadCounts | user/lib/pipe.c:141-170 | in every run the count of pipe_read, which it returns, is the number of bytes that it has taken since it was called |
| PipeRun.WriteCounts | user/lib/pipe.c:186-216 | the same for pipe_write and the bytes put |
| PipeRun.ReadTestDecides | user/lib/pipe.c:157-167 | pipe_read takes a byte, the first, iff there is one, and asks whether the pipe is closed otherwise |
| PipeRun.WriteTestDecides | user/lib/pipe.c:202-213 | pipe_write puts a byte iff there is room for one, and asks whether the pipe is closed otherwise |
| PipeRun.EarlyEndOfFile | user/lib/pipe.c:157-159 | a run in which it comes back with a byte buffered |
| PipeRun.SecondReader | user/lib/pipe.c:157-167 | in every run every reader past its test gets a byte of its own iff there is at most one reader |
| PipeRun.ServedMeans | user/lib/pipe.c:157-167 | the bytes that readers past their tests take are those in the buffer iff there are at least as many; one reader more leaves an empty buffer that looks full |
| PipeRun.FreshIsOk | user/lib/pipe.c:36-72 | a pipe just created satisfies the invariant |
| PipeEnds.PipeRefs | user/lib/pipe.c:95-126 | pageref of the pipe page is the sum of those of the two Fd pages plus the descriptors in the middle of dup or close |
| PipeEnds.ClosedMeansNoHolder | user/lib/pipe.c:95-126 | an undisturbed check answers closed iff nobody holds the other end and no descriptor is half open |
| PipeEnds.ClosedIsRight | user/lib/pipe.c:95-126 | in every run from the creation of the pipe an answer closed stays right for ever |
| PipeEnds.ClosedStays | user/lib/fd.c:116-172 | no dup, close, fork or exit reopens an end that nobody holds |
| PipeEnds.StepKeeps | user/lib/fd.c:116-172 | dup and close, system call by system call, keep the relation between the counts; an unchanged env_runs makes the two reads one snapshot |
| PipeEnds.DupGives | user/lib/fd.c:140-172 | a whole dup makes the new descriptor the same as the old one and nothing else; the end has one holder more |
| PipeEnds.CloseGives | user/lib/fd.c:116-130 | a whole close takes away the descriptor and nothing else; its end has one holder less |
| PipeEnds.ForkAndExitGive | user/lib/fork.c:177-185 | a child has exactly the descriptors of its parent; an exit takes those of one process away |
| PipeEnds.CreatedIsOk | user/lib/pipe.c:36-72 | a pipe just created satisfies the invariant |
| PipeEnds.PartForkCheck | user/lib/fork.c:177-185 | in the middle of a fork that has mapped any Fd pages and any of the data pages, an undisturbed check answers closed iff as many descriptors lack their data page as there are holders of the other end and half-open descriptors; it is wrong iff somebody holds the other end besides |
| PipeEnds.ForkFdFirst | user/lib/fork.c:177-185 | an input: with one writer left, the child's read end alone makes the answer closed |
| PipeEnds.FdAlloc | user/lib/fd.c:34-70 | the smallest unused number below MAXFD - 1 |
| FsBlocks.SlotsCanBeRead | fs/fs.c:95-110 | read_block does not panic on a block number found in a slot |
| FsBlocks.AllocGives | fs/fs.c:225-258 | alloc_block marks the first free block used, which no slot holds, or fails and frees it again; no slot changes |
| FsBlocks.WalkKeeps | fs/fs.c:375-410 | file_block_walk keeps the invariant and every slot but a new indirect pointer; only a block that becomes an indirect block must read as zeros |
| FsBlocks.MapBlockKeeps | fs/fs.c:423-447 | file_map_block keeps the invariant and every other slot; on success the block is there |
| FsBlocks.MapBlockConserves | fs/fs.c:423-447 | every block it takes ends up in a slot, even when it fails half-way |
| FsBlocks.MapBlockFits | fs/fs.c:423-447 | file_map_block succeeds iff the block is there, or there are free blocks, and memory, for it and for the indirect block it needs |
| FsBlocks.ClearBlockKeeps | fs/fs.c:451-465 | exactly that slot is emptied and exactly its block is freed |
| FsBlocks.TruncateDoes | fs/fs.c:715-740 | exactly the blocks in slots from new_nblocks to the old size are freed, plus the indirect block when new_nblocks is at most NDIRECT; all other slots stay (in bytes: TruncateCuts) |
| FsBlocks.BlockCounts | fs/fs.c:718-724 | the old blocks are those that begin at or before the old size, the new ones those that begin at or before the new size if it is not 0 |
| FsBlocks.TruncateCuts | fs/fs.c:715-740 | the slot of a block stays iff the block begins at or before the new size, which is not 0, or behind the old size in an indirect block that stays; every other slot is emptied; exactly the blocks of the emptied slots up to the old size are freed, and the indirect block iff the new size is below ten blocks |
| FsBlocks.TruncateKeepsBytes | fs/fs.c:715-740 | every byte below the new size stays in its block, which has the same words; a block that begins behind the new size is gone; cutting to 0 leaves no block up to the old size |
| FsBlocks.SetSizeCuts | fs/fs.c:744-756 | file_set_size does so to a longer file and changes only the size of any other |
| FsBlocks.TruncateConserves | fs/fs.c:715-740 | no block is lost iff the new size is at least ten blocks or the indirect block names no block that begins behind the old size |
| FsBlocks.StaleIndirectBlock | fs/fs.c:146-160 | a cached block reused as indirect block keeps the invariant iff every nonzero word in the place of a block number is in range, used, in no slot and occurs once |
| FileSystem.Server.BlockIsFree | fs/fs.c:190-200 | the bit of the block |
| FileSystem.Server.FreeBlock | fs/fs.c:204-217 | sets the bit, unless the number is 0 or out of range |
| FileSystem.Server.AllocBlockNum | fs/fs.c:225-238 | finds and clears the first set bit from 3 on |
| FileSystem.Server.AllocBlock | fs/fs.c:242-258 | does what Alloc says, for which AllocGives holds |
| FileSystem.Server.FileBlockWalk | fs/fs.c:375-410 | finds the slot of a block; the reads in it cannot panic |
| FileSystem.Server.FileMapBlock | fs/fs.c:423-447 | the number of the block, which can be read, or the error; the invariant holds |
| FileSystem.Server.FileClearBlock | fs/fs.c:451-465 | does what ClearBlock says; the invariant holds |
| FileSystem.Server.FileTruncate | fs/fs.c:715-740 | cuts the file as TruncateCuts and TruncateKeepsBytes say; the invariant holds |
| FileSystem.Server.FileSetSize | fs/fs.c:744-756 | cuts a longer file as TruncateCuts says, or sets the size; the invariant holds |
| FileSystem.Server.GetBlockFile | fs/fs.c:1238-1259 | agrees with file_map_block without alloc |
| FileSystem.Server.FreeBlockFile | fs/fs.c:1296-1319 | leaves the state and result of file_clear_block |
| FileSystem.Server.SizeFile | fs/fs.c:1552-1574 | leaves the state of file_set_size, cut in the same way |
| StructFiles.WordsReadBack | fs/fs.c:549-583 | the fields of the struct Files in a directory block, written into its words and read back, are the same; names are not touched |
| StructFiles.DirBlocksEnd | fs/fs.c:510-518 | the blocks of a directory that are searched are those that end at or before its size |
| StructFiles.NameIsWritten | fs/fs.c:696-698 | a name is written into the words of its own struct File and into no others |
| StructFiles.AttachKeeps | fs/fs.c:573-580 | a new directory block keeps the invariant iff the struct Files that its words spell hold blocks of their own |
| StructFiles.MapBlockGrown | fs/fs.c:423-447 | file_map_block fills empty slots with free blocks only, and leaves the words of every used block alone but for indirect blocks |
| StructFiles.ShrinkDir | fs/fs.c:715-740 | truncating a directory takes the struct Files in its freed blocks away and keeps the invariant |
| StructFiles.RemoveKeeps | fs/fs.c:817-820 | file_remove keeps the invariant, for files and directories, empty or not |
| StructFiles.RemoveConserves | fs/fs.c:807-829 | file_remove loses no block iff the indirect block names none that begins behind the file's size and, if it is a directory, none of the files in it has a block |
| StructFiles.NameIsCleared | fs/fs.c:817-821 | afterwards the struct File is unused; all other names, and the rest of this one, are as before |
| FileServer.Disk.GetBlock | fs/fs.c:474-489 | the block of a file, taken if it is missing; a new block of a directory brings its struct Files; the invariant holds |
| FileServer.Disk.StoreData | fs/fs.c:474-489 | a store into a data block changes that word and no slot |
| FileServer.Disk.DirAllocFile | fs/fs.c:549-583 | succeeds iff the block where its search ends is there or fits, with the first unused struct File of the first block that has one, or the first of a block behind the last; the directory is a block longer afterwards iff the search went through all blocks, even on failure; whatever a slot held it holds still; the invariant holds |
| StructFiles.WithoutHoles | fs/fs.c:549-583 | in a directory without holes it fails iff all struct Files are in use and no block fits behind the last |
| StructFiles.CleanIsReady | fs/fs.c:549-583 | what it needs of the blocks it takes is so whenever no free block in the cache has words that could pass for block numbers |
| FileServer.Disk.CreateFile | fs/fs.c:681-701 | succeeds in the same cases and then the struct File is in use and has the name, word by word; the invariant holds |
| FileServer.Disk.RemoveFile | fs/fs.c:807-829 | does what Removed says, for which RemoveKeeps and RemoveConserves hold |
| FileServer.Disk.SetSize | fs/fs.c:744-756 | cutting a regular file as TruncateCuts says, or growing it, keeps the invariant with the struct Files in place |
| FsFormat.ImageIsGood | tools/fsformat.c:142-148 | an image built and flushed satisfies the server's invariant, and every block handed out is in exactly one slot |
| FsFormat.LinkPending | tools/fsformat.c:172-184 | linking a block handed out into an empty slot |
| FsFormat.LinkIndirect | tools/fsformat.c:178-181 | a new indirect block, zero like the rest of the disk |
| FsFormat.Image.constructor | tools/fsformat.c:105-133 | the bitmap says free for exactly the blocks of the disk, and nothing is linked |
| FsFormat.Image.NextBlock | tools/fsformat.c:136-139 | blocks are handed out in order |
| FsFormat.Image.SaveBlockLink | tools/fsformat.c:172-184 | the slot holds the block; at most an indirect block is added; every other slot stays |
| FsFormat.Image.MakeLinkBlock | tools/fsformat.c:187-192 | the directory grows by one linked block |
| FsFormat.Image.CreateFile | tools/fsformat.c:207-245 | a struct File without blocks; a directory has just the blocks that its struct Files in use need; every data block keeps its slot and its words |
| FsFormat.Image.AppendBlock | tools/fsformat.c:272-275 | the next block of the file holds the data read; every data block before keeps its slot and its words |
| FsFormat.Image.MakeDirectory | tools/fsformat.c:286-299 | the struct File of a new directory, in use and without blocks |
| FsFormat.Image.WriteFile | tools/fsformat.c:248-277 | a new file: block i is linked and holds chunk i; every data block of the files before keeps its slot and its words |
| FsFormat.Image.FlushBitmap | tools/fsformat.c:142-148 | the bitmap says used exactly below nextbno and from NBLOCK on, and the image is good |
| Paths.DirLookup | fs/fs.c:510-544 | the first struct File with the name, over all blocks in order |
| Paths.WalkPath | fs/fs.c:602-663 | return value and the three out-pointers are those of resolving the non-empty components |
| Paths.ResolveIsFollow | fs/fs.c:602-663 | for short names the walk finds exactly what following the names from directory to directory finds |
| Paths.MissingIsLast | fs/fs.c:640-654 | it reports directory and last name iff only the last name is missing |
| Paths.BadPathIf | fs/fs.c:621-631 | it refuses the path iff a name is too long and those before it are not and lead somewhere |
| Paths.FirstComponent | fs/fs.c:621-635 | the components are the pieces between slashes that are not empty |
| Paths.GetFile | fs/fs.c:1409-1441 | on paths in normal form the same walk, with one more byte of name allowed |
| Paths.GetFileAgrees | fs/fs.c:1409-1441 | walk_path finds a file iff get_file finds it and no name on the way has MAXNAMELEN bytes; then it is the same file in the same directory |
| Paths.LongestNameDiffers | fs/fs.c:1424-1428 | an input: a name of MAXNAMELEN bytes is found by one and refused by the other |
| Paths.LongestName | fs/fs.c:1336-1336 | strcmp sees a name of MAXNAMELEN bytes iff f_name has no zero byte and the byte behind it is zero |
| Paths.CreatedIsShort | fs/fs.c:681-701 | a name that file_create gives is shorter |
| Paths.Names.DirAllocFile | fs/fs.c:549-583 | the first unused struct File, or the first of a new block |
| Paths.Names.FileCreate | fs/fs.c:681-701 | succeeds iff only the last name is missing, and then the path leads to the new file |
| Paths.Names.FileRemove | fs/fs.c:807-829 | the entry the path leads to loses its name |
| Paths.CreatedLookup | fs/fs.c:681-701 | the new name is found in its directory, every other name is found as before |
| Paths.CreatedIsFound | fs/fs.c:681-701 | after file_create the path leads to the new file |
| Paths.CreatedKeepsPaths | fs/fs.c:681-701 | every list of names that led to a file leads to the same file afterwards |
| Paths.RemovedLookup | fs/fs.c:817-820 | other names are found as before; the name is gone iff it was there once |
| ElfLoader.OncePerPage | lib/elfloader.c:98-121 | the mapper is called once for each page of the segment, in order, iff the segment is aligned, or its file part reaches the end of the first page, or it has no other part and is not empty |
| ElfLoader.SegmentInMemory | lib/elfloader.c:98-121 | then memory holds the file's bytes followed by zeros |
| ElfLoader.ShortFileReachesEnd | lib/elfloader.c:109-121 | when a short unaligned segment reaches its last page |
| ElfLoader.LastPageMissed | lib/elfloader.c:109-121 | a segment whose last page is never mapped |
| ElfLoader.Loader.LoadIcodeMapper | kern/env.c:403-448 | a cleared page if there is none, exactly if the frames suffice for it and its missing tables, then the bytes at the place of va |
| ElfLoader.Loader.ElfLoadSeg64 | lib/elfloader.c:80-124 | the calls of the mapper, the content of every page it went through, and nothing else changed; four frames for each page are always enough |

## Left out

Not modelled:

- The Sv32 branch of `kern/pmap.c` and of `user/include/lib.h`: the same structure with one level fewer.
- Assembly, CSR access, saving and restoring registers, boot code and SBI calls. `sfence.vma` is taken to make a
  change of the page table take effect at once.
- Devices: `kern/virtio.c`, `fs/ide.c`, the console, the sector system calls.
- Writing the block cache back to disk, and which blocks are dirty: `block_is_dirty` and `dirty_block` use
  different bits.
- `fs/serv.c`, `user/lib/file.c`, `user/lib/fsipc.c` and the rest of the request plumbing; spawn; the shell; test
  programs.
- In `ipc_recv`, null pointers for the sender and the permissions: both are always read here.
- Debugging functions and the variants that no caller uses (`debug_*`, `tree_*`, `get_path`, `dir_lookup1`,
  `alloc_block_file`, `alloc_block1`).
- The template directory `base_pgdir`: root slots 2 and PENVS of every directory alias its tables without being
  counted, and the counts that boot code leaves on frames are a fixed number per frame.
- The panic of the mapping calls for flags of 0x400 and above: flags are ten bits wide here. Leaves that point at
  device registers are not modelled either, so every leaf has a `struct Page`.

Stated weaker than the code, or in a narrower scope:

- Pmap.PhysicalMemory.Retain: requires a count below 65535, since `pp_ref` is 16 bits wide and nothing in the code
  checks it; so do the mapping methods that call it.
- Pmap.PhysicalMemory.AllocPageUser: only for addresses below UTOP, where the window is not in the way.
- Syscalls.Machine.PageFault: the copy of the trap frame onto the user exception stack is left out, so are faults
  between UTOP and 0x200000000, and what a fault on an unmapped page leaves behind when frames run out.
- Pmap.PhysicalMemory.MapPage: requires a frame in use whose count is below 65535; its callers pass only pages that are
  mapped (`UserPage`) or tables just made.
- KernelState.EnvFreeKeeps: for an env that is not blocked in `sys_ipc_recv`; only the caller of `sys_env_destroy` is ever
  freed (`OnlySelfIsDestroyed`), and it is running.
- Kernel.KernelData.CreateEnv: with a free env and a free ASID, since the code goes on with an uninitialised pointer
  otherwise.
- FileServer.Disk.DirAllocFile: if it takes a block, that block must spell struct Files without blocks, and have an unused one
  where it fills a hole; an indirect block that it needs must read as zeros (`Ready`). So for `CreateFile`. A client that keeps a
  block mapped after it has been freed is not modelled.
- FileServer.Disk.SetSize: not for directories, whose size only `dir_alloc_file` and `file_remove` change here.
- PipeRun.EndOfStream: forks and exits are one step, as in `ClosedIsRight`.
- KernelState.AllocGives: the page directory of the new env is not part of this state; `EnvSetupVm` says when its
  window is complete.
- KernelState.ExoforkKeeps: as for `AllocGives`; registers of the child are not modelled.
- KernelState.IpcTrySendKeeps: the result of mapping the page at srcva is a parameter of this state machine;
  `Syscalls.Machine.SysIpcTrySend` has the mapping.
- Kernel.KernelData.SysIpcTrySend: the same parameter.
- Syscalls.Machine.SysIpcTrySend: no frame's count may be 65535 before the call, as for `Retain`; so for `SysMemMap`.
- FileServer.Disk.GetBlock: a block taken for a directory must spell struct Files without blocks; `AttachKeeps` has the exact
  condition for the invariant.
- Kernel.KernelData.EnvInit: the template directory and the reference counts that env_init adjusts are not part of
  this state. The two lists are sequences here; their pointers are modelled in Queue.
- Scheduling.BoundedWaiting: an action that panics ends the run; so in `ExactSlices`.
- Hardware.AccessAgrees: accessed and dirty bits are taken to be set by the machine; root slots 2 and PENVS are left
  out.
- EnvCalls.ForkGives: as for `KernelState.AllocGives`; below allocation number 2^21.
- CowFork.ForkCopiesAll: the same runs as in `CowFork.Isolation`.
- CowFork.Isolation: pages below UTEMP are not inherited (`sys_mem_map` refuses them), plain read-only pages are
  left out because a store makes them writable, user code does not touch the page at UCOW, fork meets `ForkSafe`
  (`UnsafeForkLeaks` shows that this is exact), between reading flags and mapping it stores to its frames only, and frames
  for the copies are there. Pages that programs share by
  `sys_mem_map` outside fork, or send by IPC, are left out. Every system call is a point where other
  envs can run, so this is a state machine and not a loop.
- PipeEnds.ClosedIsRight: fork or exit of a holder is one step, `env_runs` is unbounded (the code's wraps after 2^32
  switches within one check), and the system calls of dup and close succeed.
- PipeRun.Fifo: moving a byte with its index wrap is one step, and one process reads and one writes; `SplitWrapReadsStaleByte`
  and `SecondReader` show why.
- FsBlocks.MapBlockKeeps: a block that becomes an indirect block must read as zeros; `StaleIndirectBlock` has the exact condition for
  the invariant.
- FsBlocks.TruncateDoes: read errors of the indirect block are not modelled: `read_block` does not check its allocation.
- FileSystem.Server.FileSetSize: `f_dir` and the flush of the directory are left out.
- FsFormat.ImageIsGood: block types, byte order, the host's files and directories are left out; images stay within
  NBLOCK, as the code requires without a check.
- Paths.WalkPath: directories without holes, all of whose blocks can be read; `f_dir` is not modelled.
- Paths.Names.DirAllocFile: the new block can always be had, and all its struct Files are unused; `FileServer.Disk.DirAllocFile` has the
  failures.
- Paths.Names.FileRemove: here the entry loses its name; the truncation and what becomes of the files in a removed directory are in
  `FileServer.Disk.RemoveFile`.
- ElfLoader.Loader.ElfLoadSeg64: over a map of pages of one address space, not over Pmap's tables: how many tables are missing for a page is left
  open; the ELF header and the flags of the segment are left out.
