# UnicOS, modelled and proved

UnicOS is a small x86-64 kernel with a shell, a disk utility and an image packer. This project models its
stateful cores in Dafny and proves what they keep, over every run.

Six groups of modules, each with the same two layers. A specification layer gives the state as a value and each
operation as a function on it, with the theorems about runs of those functions. A program layer gives the
source's own form, with classes, linked nodes, arrays and loops, and ties every method to its specification
function: a method's `ensures` states the whole new state.

1. **Paging over a frame stack.** `PhysicalMemory`, `PageTables`, `FrameOwnership` (who owns which frame),
   `PageMapping` (`add_page` as a map update), `Teardown` and `Conservation` (the nested frees), `ProcessTrees`,
   `ProcessStack`, `NewProcess`, `AddressSpace`, `Boot`, then `KernelRuns`, `RunSafety`, `TableBits`, `AccessRights`
   and `LeakCount` over every run from power-on. The program layer is `FrameStack`, `Paging` and `KernelMemory`.
   Physical memory is 512 MB of frames of 512 words; a word is read through the bit fields of a page-table entry.
2. **Scheduler.** `Scheduling` (the choice), `HeapCursors` (one heap cursor for all processes, and the runs of the
   scheduler), `TaskFairness` (who waits how long in such a run), `TaskRing` (the linked ring and the globals).
3. **BMFS.** `BmfsEntries` (bytes of the directory), `BmfsPlacement` (where `create` puts a file), `BmfsVolume`
   and `BmfsRuns` (a disk image as a map from names to contents), `BmfsLayout` (which bytes of the disk), `Bmfs` (the
   utility on a byte array). Each command starts by reading the directory from the disk, as each start of the
   utility does.
4. **Filesystem namespace.** `PathNames`, `Namespace`, `NamespaceTree`, `NamespaceEffects`, `MountTable` (mounts that
   find the table full), and `FileSystem` on linked directories.
5. **Consoles.** `CellStream` (an unbounded stream of cells and the window onto it) and `Console`.
6. **Strings, numbers, modules.** `CStrings`, `Numerals`, `Tokenizer`, `ModuleImage`, `Packer`, `ModuleLoader`.

`Words` holds bytes, wrapping 64-bit words and their little-endian bytes; `Wrappers` an option type; `Counting`
counts distinct numbers.

## What turned out otherwise than promised

Each of these has its exact condition and, unless it is so in every state, a concrete case.

- `free_l1_table` stops before index 511 (Kernel/paging.c:506): a process loses one frame per level 1 table whose last
  entry is filled, and only those (`ExitReturnsAllButLastEntries`); four for its stack (`CreateThenExitLosesFour`).
  From power-on exactly 31420 processes can come and go one after the other (`CreationStopsAfter`).
- `pmm_page_free` announces that it aligns an unaligned address; the code writes the slot and does not move the
  stack pointer (Kernel/mem.c:92-96). The page is free again exactly when the address is aligned, and lost otherwise
  (`FreeUndoesAllocIff`); 12 MB + 4 KB, given back by its eighth byte, is lost (`UnalignedFreeLosesPage`).
- `create_pml4` marks userland, and `add_page` every page, for user mode (Kernel/paging.c:120 and 348-365), but below
  level 4 and level 3 entries that are not (Kernel/paging.c:99-107): all that a process maps is writable and none of it
  can be reached in user mode (`MappedIsWritableAndNeverUser`).
- `task_next` returns from its fall-back before it loads the heap cursor (Kernel/task.c:380-384): harmless exactly
  when the null task has that cursor already, which a RUNNING null task ensures (`SwitchKeepsAccountsIff`). Any task
  can make the null task JOINING with `task_join` or ZOMBIE with SIGKILL (`NullTaskCanBeStopped`); it then goes on with
  the cursor of the task that left (`FallBackTakesTheCursorAlong`). No other task's heap is ever touched by this
  (`HeapsAreIsolated`).
- `task_sleep` adds to a 64-bit clock (Kernel/task.c:304): a task sleeps its time exactly while the sum does not wrap
  (`SleepsItsTimeIff`); put to sleep at 10 for 2^64 - 1 it is woken at the next tick (`WrappedDeadlineWakesEarly`).
- BMFS `create` goes on past the first deleted entry with its stale extent (Bootloader/BMFS/bmfs.c:670-685). It
  misplaces a file exactly when no gap is big enough and a deleted entry once ended low enough (`PlacedWellIff`);
  `StaleExtentMisplaces` is a directory.
- BMFS `create` counts no used entry when no entry has the end mark (Bootloader/BMFS/bmfs.c:630-649): every file
  then goes to block 1 (`NoEndMarkPlacedWellIff`, `MissingEndMarkMisplaces`). If the first entry was the deleted one
  the rest of the directory is cut off (`CutShortForgets`; `DeletedInFrontForgets` is a directory); otherwise every
  file stays (`CreateAddsFile`).
- BMFS `create` copies any name (Bootloader/BMFS/bmfs.c:697). An empty one ends the directory at its own entry:
  exactly the files behind it are forgotten (`EmptyNameEndsDirectory`; `EmptyNameForgets` is a directory). One that
  begins with the deletion mark is gone at once (`DeletionMarkIsGone`, `DeletionMarkForgets`). One of 32 to 63
  characters runs over the extent, which stays sound exactly when the name has fewer than 40 and the place it moves
  the file to is free (`OverlongNameSoundIff`); one of 32 moves it to block 0 (`NameOf32MovesToBlock0`).
- BMFS `read` and `write` count bytes in an `int` (Bootloader/BMFS/bmfs.c:739 and 779). The counter stays in its range
  exactly up to 2^31 - 1 bytes (`CounterStaysIntIff`). Where it wraps, a file of more than 2^31 bytes is cut there
  while its full size is recorded (`WriteReadsBackIff`), as one of 3 GiB is (`LargeFileIsCut`).
- `fs_traverse` matches by prefix (Kernel/drivers/fs.c:65): a new directory is found under its path exactly when
  no lower slot holds a name with the new one as a prefix (`MkdirThenResolve`, `PrefixIsTakenForName`).
- `fs_mount` links a device before it looks for a free slot in mountinfo (Kernel/drivers/fs.c:184-195). With the
  table full the directories stay a tree, but one border between devices is recorded nowhere
  (`UnrecordedMountKeepsTree`, `UnrecordedMountBreaksOneBorder`). The next mount of that device is not refused: it
  keeps a tree exactly when the device's root hangs nowhere yet and the mount point is not below it
  (`UnrecordedMountKeepsTreeIff`); mounted at "/" and then at "/b" it hangs in itself (`SecondMountMakesCycle`), from
  a state that seventeen devices and sixteen mounts lead to (`FullTableIsReached`).
- `fs_unmount` resolves the recorded path again (Kernel/drivers/fs.c:222-229): it takes the device out exactly when the
  path still leads to the directory the device's root hangs in (`UnmountsIff`). After a mount at "/m" a directory "mm"
  in a lower slot makes the mount stay (`ShadowedMountStays`), and a mount point inside another mount can stop
  resolving (`NestedMountLosesItsPath`).
- `build_char` extends the sign of a character (Kernel/drivers/video.c:26): it is shown in the colour that was asked for
  exactly when it is below 128, and in colour 255 otherwise (`CharIsDisplayed`).
- A path that ends in a slash is not the path without it: `strncmp` of no characters compares one
  (common/string.c:59-68), so an empty component leads nowhere (`EmptyComponentLeadsNowhere`) unless a directory
  without a name was made, as `fs_mkdir` does exactly for a path that ends in a slash or is one character
  (`MkdirKeepsNamedIff`).
- The shell gives each argument a buffer of 512 characters (Userland/ShellModule/shellModule.c:208): an argument has no
  terminator exactly when a command of 512 characters is that one argument, without a quote
  (`ArgumentUnterminatedIff`, `LongArgumentIsUnterminated`).
- `ctoi` adds the character before it subtracts '0' (Userland/libc/libc.c:332), which costs the last 48 values
  of `int` (`ReadsWithinIntIff`), of which 2147483600 is the first (`FirstOverflow`). Where sums wrap they come out
  right all the same (`Ctoi`).

## Model

| member | source | states |
|---|---|---|
| PhysicalMemory.WordFieldsRoundTrip | Kernel/include/paging.h:33-46 | the bit fields of an entry and the 64-bit word it occupies determine each other, both ways |
| FrameStack.Pmm.Initialize | Kernel/mem.c:66-73 | the free stack becomes the frames from 12 MB up to 512 MB, lowest at the bottom |
| FrameStack.Pmm.ClearFrame | common/string.c:95-103 | the whole frame reads zero and no other frame changes |
| FrameStack.Pmm.Alloc | Kernel/mem.c:81-88 | pops the top frame and clears it; the bottom slot is never popped: with one frame left the machine stops |
| FrameStack.Pmm.Free | Kernel/mem.c:90-99 | pushes an aligned address; an unaligned one leaves the stack as it was |
| PhysicalMemory.FreeUndoesAllocIff | Kernel/mem.c:90-99 | an allocated page is free again exactly when it is given back by its first byte; otherwise no allocation can return it |
| PhysicalMemory.UnalignedFreeLosesPage | Kernel/mem.c:92-96 | a page given back by its eighth byte is lost |
| PageTables.RecomposeFields | Kernel/paging.c:566-573 | the five fields of `translate` recompose to the address modulo 2^48, for every address |
| Paging.Mmu.MapIdentity | Kernel/paging.c:130-136 | writes the 512 identity entries of a level 1 table and touches nothing else |
| Paging.Mmu.MakeIdentityL1Map | Kernel/paging.c:128-138 | allocates a table and maps its 2 MB to themselves |
| Paging.Mmu.CreateInitialL1Tables | Kernel/paging.c:46-53 | the six shared tables, in order, with their flags |
| Paging.Mmu.MapAllMemory | Kernel/paging.c:71-88 | the 257 tables below the kernel level 2 table, entry by entry |
| Paging.Mmu.MakeAllMemoryIdentity | Kernel/paging.c:56-91 | the kernel tree equals the specified one |
| Paging.Mmu.Initialize | Kernel/paging.c:27-44 | shared tables and kernel tree are those of the specified boot |
| Paging.Mmu.GenericL2Table | Kernel/paging.c:112-125 | six present entries for the shared tables, entry 2 also for user mode |
| Paging.Mmu.MakePml4 | Kernel/paging.c:94-110 | a new tree of three frames over the shared tables; stops when they cannot be had |
| Paging.Mmu.SetPresent | Kernel/paging.c:389-393 | sets p, rw and us field by field, the other fields stay |
| Paging.Mmu.GetEntry | Kernel/paging.c:388-443 | the frame of an entry, taken from the stack when the entry is not present: the four functions share this body |
| Paging.Mmu.AddPage | Kernel/paging.c:378-385 | the address of the page, with every missing level filled in on the way |
| Paging.Mmu.AddStackPage | Kernel/paging.c:215-222 | one turn of the stack loop is one `add_page`; the page of the last turn is the one that is kept |
| Paging.Mmu.MapStack | Kernel/paging.c:213-227 | the 2048 stack pages in loop order, 4 tables of 512 |
| Paging.Mmu.SaveContext | Kernel/paging.c:229-255 | 23 words at the end of the last stack page, in the order of the context structure |
| Paging.Mmu.AllocNewProcessStack | Kernel/paging.c:154-265 | stack pages and context as specified; returns 30 MB - 184 |
| Paging.Mmu.FreeL1Table | Kernel/paging.c:503-518 | pushes the visited pages in order and returns their number; stops before index 511 |
| Paging.Mmu.FreeL2Table | Kernel/paging.c:486-499 | starts at index 6; subtree first, then the table itself |
| Paging.Mmu.FreeL3Table | Kernel/paging.c:470-483 | pushes the visits of the tables below, then each of these tables |
| Paging.Mmu.FreeL4Table | Kernel/paging.c:446-467 | pushes exactly the visits of the tree and returns one less than their number |
| Paging.Mmu.PageFault | Kernel/paging.c:340-371 | the fault handler of the run model on the real memory: fills in exactly the addresses in [22 MB, 32 MB) |
| FrameOwnership.GraftAddsOneNode | Kernel/paging.c:388-443 | linking a zeroed frame under a node adds that one node to the tree and changes no other |
| FrameOwnership.OtherFramesDoNotMatter | Kernel/paging.c:94-125 | a tree reads the same after any change to frames that are not its tables |
| FrameOwnership.TreesHaveKnownTables | Kernel/paging.c:46-125 | every table of every live tree is a frame the tree owns or a shared table |
| PageMapping.MarkingFirstIsHarmless | Kernel/paging.c:389-393 | setting p before the frame is popped and cleared gives the same memory as linking afterwards |
| PageMapping.EnsureEntryKeepsOwnership | Kernel/paging.c:388-443 | one allocated entry keeps the ownership invariant and adds one owned node |
| PageMapping.FillExtends | Kernel/paging.c:378-385 | filling a path adds the missing nodes on it, takes that many frames and keeps the invariant |
| PageMapping.AddPageUpdatesTheMap | Kernel/paging.c:378-443 | `add_page` is an update of the map from pages to frames at one point: every other page of every tree walks as before, a second call changes nothing and returns the same page, and it stops the machine exactly when the stack is too short |
| PageMapping.NewPageIsClear | Kernel/paging.c:433-443 | a page that was not mapped gets a cleared frame off the stack |
| Teardown.VisitsAreSound | Kernel/paging.c:446-518 | everything the nested frees push is a node of the tree |
| Teardown.VisitsAreComplete | Kernel/paging.c:446-518 | every node they should push is pushed |
| Conservation.TeardownIsExact | Kernel/paging.c:446-518 | the pushed nodes are exactly the returned ones, each owned by the tree and visited once |
| Conservation.TeardownKeepsOwnership | Kernel/paging.c:446-518 | after the teardown every frame is free, shared, owned by another tree or lost at index 511, and the invariant holds without the tree |
| ProcessTrees.CreatePml4KeepsOwnership | Kernel/paging.c:94-125 | a new tree owns three frames, shares six tables, keeps the invariant; it fails exactly when fewer than four frames are left |
| ProcessStack.StackRoundMaps | Kernel/paging.c:215-222 | each turn of the stack loop keeps the invariant and maps one page more |
| ProcessStack.StackPagesMap | Kernel/paging.c:212-227 | the loop maps the 2048 stack pages and takes 2052 frames, or the machine stops |
| NewProcess.PageWriteKeepsOwnership | Kernel/paging.c:229-255 | a store into an owned page, or into userland in [4 MB, 6 MB), keeps the invariant and every translation |
| NewProcess.CreateProcessKeepsOwnership | Kernel/task.c:271-276 | building a whole process keeps the invariant; its nodes are the three tables, the shared ones and the stack |
| AddressSpace.KernelTreeIsIdentity | Kernel/paging.c:56-91 | below 257 * 2 MB the kernel tree maps every address to itself |
| AddressSpace.NewProcessAddressSpace | Kernel/paging.c:94-227 | a new process walks to the identity on [0, 12 MB), to frames that were free on [22 MB, 30 MB), and nowhere else |
| AddressSpace.StackPagesAreDistinct | Kernel/paging.c:212-227 | two stack pages are two frames |
| AddressSpace.ContextIsAtStackPointer | Kernel/paging.c:229-264 | each of the 23 context words is read through the new tree at its place above the stack pointer, and holds the register it is meant for |
| AddressSpace.NewTaskStartsInWrapper | Kernel/paging.c:232-264 | the registers a new task resumes with, all 23: rip is the wrapper, rsp is 30 MB, rdi, rsi and rdx hold the entry point, the argument count and the argument vector |
| AddressSpace.KernelHalfIsIdentity | Kernel/paging.c:112-125 | every process walks to the identity on [0, 12 MB) in every state that keeps the invariant |
| AddressSpace.FaultIsResolved | Kernel/paging.c:348-365 | `add_page` maps an address of [22 MB, 32 MB) at its offset; only a stack of at most two frames stops it |
| Boot.BootKernelLands | Kernel/paging.c:27-91 | what booting leaves in memory, frame by frame |
| Boot.IdentityIndexFitsIff | Kernel/paging.c:84 | the address formed in `int` fits exactly up to table index 1023, and there gives the entry its own page |
| Boot.BootEstablishesOwnership | Kernel/paging.c:27-91 | the booted machine satisfies the ownership invariant with no process |
| KernelRuns.StepKeepsInv | Kernel/paging.c:321-375 | creation, fault, exit, and a store of any task into userland in [4 MB, 6 MB) or from 12 MB on, keep the ownership invariant and the regions of the fault policy |
| KernelRuns.RunKeepsInv | Kernel/task.c:133-138 | every run of such steps from power-on keeps them |
| KernelRuns.FaultResolves | Kernel/paging.c:340-371 | after a fault in [22 MB, 32 MB) the address is mapped at its own offset in a frame of its own, a cleared one off the stack unless it was mapped before, and no other page of any process translates otherwise; the machine stops only with at most two frames left; any other fault leaves memory as it is |
| KernelRuns.StoreReadsBack | Kernel/paging.c:378-385 | what a process stores is read back at every address of every process that leads to the same word, and at no other |
| RunSafety.StackIsSafe | Kernel/mem.c:81-88 | free addresses are distinct, aligned, in [12 MB, 512 MB), 12 MB at the bottom |
| RunSafety.OwnershipOverEveryRun | Kernel/paging.c:94-518 | in every reachable state: the stack is sound, no frame serves two purposes, trees share only the kernel half |
| RunSafety.PagesAreNotTables | Kernel/paging.c:378-443 | no page a process can reach outside the kernel half holds a table of any process |
| RunSafety.ExitReturnsAllButLastEntries | Kernel/paging.c:446-518 | teardown gives back all frames of the tree except pages at level 1 index 511, each once, never a shared table and nothing at or below 12 MB |
| TableBits.TablesHaveNoOtherBits | Kernel/paging.c:388-443 | in every reachable state no entry of any table of any tree has a bit set but `p`, `rw`, `us` and those of `address`: neither page size nor no-execute |
| AccessRights.EntriesHaveTheirBits | Kernel/paging.c:46-125 | in every reachable state each entry on the way to a page is writable, and has `us` set exactly in level 2 for [4 MB, 6 MB), in level 1 for [4 MB, 10 MB) and in what `add_page` adds |
| AccessRights.MappedIsWritableAndNeverUser | Kernel/paging.c:94-125 | in every reachable state what a process maps is writable and closed to user mode |
| LeakCount.CreateThenExitLosesFour | Kernel/paging.c:506 | creating and destroying a process takes 2055 frames and gives 2051 back |
| LeakCount.ChurnLosesFourEach | Kernel/paging.c:446-518 | k processes that come and go lose 4k frames; the machine gets through them exactly while 2056 frames are left for the last |
| LeakCount.CreationStopsAfter | Kernel/mem.c:81-83 | from power-on exactly 31420 processes can come and go one after the other |
| KernelMemory.MemoryManager.constructor | Kernel/paging.c:27-44 | booting reaches the first state of the run model |
| KernelMemory.MemoryManager.NewTask | Kernel/task.c:271-276 | the class makes the step the run model makes and the invariant holds; the stack pointer it returns is 30 MB - 184, where the context begins |
| KernelMemory.MemoryManager.HandlePageFault | Kernel/paging.c:321-375 | the class makes the fault step of the run model and the invariant holds; after it an address of [22 MB, 32 MB) is mapped unless the machine has stopped |
| KernelMemory.MemoryManager.Discard | Kernel/task.c:131-138 | the class makes the teardown step, and its count is the number of visits minus one |
| KernelMemory.MemoryManager.StoreWord | Kernel/paging.c:334-365 | the class makes the store step, through the tables of the process |
| Scheduling.PicksFirstRunning | Kernel/task.c:370-386 | the chosen task was RUNNING on entry and is the first such task after the current one, unless no other task runs: exactly then the call falls back on the null task, in whatever state |
| Scheduling.LoopStops | Kernel/task.c:371-378 | the loop stops within one round |
| Scheduling.NullTaskStopsTheLoop | Kernel/task.c:375-383 | with a RUNNING null task it comes round only when the null task is the current one |
| TaskFairness.WaitingTaskIsServed | Kernel/task.c:370-386 | on a ring of n tasks a RUNNING task is current within n switches, and an overdue sleeper within 2n, plus one or two for each task created meanwhile, whatever is created, removed, stopped, woken or allocated in between |
| TaskFairness.CreationsStarve | Kernel/task.c:80-99 | creations cannot be left out of that bound: with one before each switch a RUNNING task is never served |
| TaskFairness.OnlyOverdueSleepersWake | Kernel/task.c:162-169 | over any number of switches a task that nobody else changes becomes RUNNING only if it was SLEEPING and its deadline has passed: a PAUSED, JOINING or ZOMBIE task stays what it is |
| TaskFairness.SleepsUntilItsDeadline | Kernel/task.c:302-304 | a task put to sleep is still asleep after any run in which the clock has not passed its deadline and nobody else changed it |
| Scheduling.SleepsItsTimeIff | Kernel/task.c:302-304 | a sleeper is never woken before its time exactly while the deadline does not wrap |
| Scheduling.WrappedDeadlineWakesEarly | Kernel/task.c:304 | put to sleep at 10 for 2^64 - 1 a task is woken at the next tick |
| Scheduling.NotPassed | Kernel/task.c:375-378 | a due sleeper still asleep after a call has not been passed, whatever state the null task is in |
| Scheduling.WakesOnlyOverdue | Kernel/task.c:162-169 | a call changes the state of a task only from SLEEPING past its deadline to RUNNING, and nothing else of it |
| HeapCursors.SavedCursors | Kernel/scheduler.c:8-21 | after the save each task holds the cursor it would allocate at next; pids stay |
| HeapCursors.SwitchedCursors | Kernel/task.c:380-387 | the coming task brings its own cursor, except that when nobody else runs the null task comes with the cursor unchanged |
| HeapCursors.EndIsTheSum | Kernel/syscalls.c:320-335 | the cursor of a lone task is 30 MB plus its lengths modulo 2^64 |
| HeapCursors.HeapBeginsAboveStack | Kernel/syscalls.c:17 | the first block of a fresh task is at 30 MB, the top of its stack, and a heap of at most 2 MB lies in the region the fault handler fills in |
| HeapCursors.SwitchKeepsAccountsIff | Kernel/task.c:380-387 | a switch keeps the accounts of all tasks but the null task, and its account too exactly unless the switch falls back on it with another cursor |
| HeapCursors.NullTaskCanBeStopped | Kernel/task.c:336-349 | two switches, an allocation and a join or a kill lead from two fresh tasks to a null task that is not RUNNING |
| HeapCursors.FallBackTakesTheCursorAlong | Kernel/task.c:380-384 | there a JOINING or ZOMBIE null task that allocated nothing goes on 16 bytes above its own blocks |
| HeapCursors.HeapsAreIsolated | Kernel/syscalls.c:320-360 | under any interleaving of allocations, switches, changes of any task's state, creations and removals each task but the null task gets the addresses it would get alone; so does the null task while it is left RUNNING |
| HeapCursors.BlocksInOrderIffTotalFits | Kernel/syscalls.c:320-335 | the non-empty blocks of a task follow one another without overlap exactly while 30 MB plus their total fits in 64 bits |
| HeapCursors.WrappedBlocksOverlap | Kernel/syscalls.c:325 | two lengths for which the second block overlaps the first |
| TaskRing.UnlinkedIsRing | Kernel/task.c:118-126 | linking the neighbours of a task to each other leaves a ring of the others |
| TaskRing.Scheduler.GetNewPid | Kernel/task.c:38-49 | the next pid |
| TaskRing.Scheduler.TaskAdd | Kernel/task.c:80-99 | appends to the ring; next and prev stay inverse and the new task is last |
| TaskRing.Scheduler.Unlink | Kernel/task.c:118-126 | deletes from the ring; a ring of one is left as it is |
| TaskRing.Scheduler.TaskRemove | Kernel/task.c:101-141 | the waiting task becomes RUNNING, then the task, whichever it is, leaves the ring with its own links as they were; unless it is the current task or the null task this is the removal step of the run model |
| TaskRing.Scheduler.TaskCreate | Kernel/task.c:245-278 | a PAUSED task with the next pid and a fresh heap cursor, at the end of the ring |
| TaskRing.Scheduler.SysTaskCreate | Kernel/syscalls.c:415-425 | the creation step of the run model |
| TaskRing.Scheduler.TaskReady | Kernel/task.c:293-295 | only that task becomes RUNNING |
| TaskRing.Scheduler.TaskPause | Kernel/task.c:297-298 | only that task becomes PAUSED |
| TaskRing.Scheduler.TaskJoin | Kernel/task.c:347-348 | the waiting task becomes JOINING and is noted in the other, whichever tasks they are |
| TaskRing.Scheduler.TaskScheduleRemoval | Kernel/task.c:143-151 | the task becomes ZOMBIE and the one that waited for it RUNNING |
| TaskRing.Scheduler.TaskSleep | Kernel/task.c:302-304 | only that task sleeps, until now plus ms modulo 2^64 |
| TaskRing.Scheduler.TaskInit | Kernel/task.c:192-212 | eight RUNNING tasks with fresh cursors, the null task last: the start of the isolation theorem |
| TaskRing.Scheduler.UpdateTaskState | Kernel/task.c:162-169 | a SLEEPING task whose deadline has passed becomes RUNNING; any other stays as it is |
| TaskRing.Scheduler.Seek | Kernel/task.c:371-378 | the loop over the links passes the ring in order, waking sleepers, and stops at a RUNNING task or the current one |
| TaskRing.Scheduler.TaskNext | Kernel/task.c:370-400 | on the linked nodes it is the specified switch, so it wakes overdue sleepers only and picks the first RUNNING task |
| TaskRing.Scheduler.SchedulerU2K | Kernel/scheduler.c:8-21 | saves stack pointer and cursor of the current task and nothing else |
| TaskRing.Scheduler.SchedulerK2U | Kernel/scheduler.c:23-32 | a quantum of five and the stack pointer of the current task |
| TaskRing.Scheduler.Reschedule | Kernel/loader.asm:248-255 | save, choose, restore is the switch step; the coming task resumes at the stack pointer it left with |
| TaskRing.Scheduler.SysMalloc | Kernel/syscalls.c:320-335 | the allocation step; the grant goes to the current task |
| TaskRing.Scheduler.TaskFindByPid | Kernel/task.c:432-458 | the unique task with the pid, or null exactly when there is none |
| TaskRing.Scheduler.TaskForeach | Kernel/task.c:418-426 | calls on every task once, in ring order |
| BmfsEntries.EntryRoundTrip | Bootloader/BMFS/bmfs.c:12-19 | an entry comes back from its 64 bytes |
| BmfsEntries.EntryLayout | Bootloader/BMFS/bmfs.c:12-19 | name, starting block, reserved blocks and size lie at bytes 0, 32, 40 and 48 of the record |
| Words.WordIsLittleEndian | Bootloader/BMFS/bmfs.c:12-19 | a field of eight bytes has its lowest byte first |
| BmfsEntries.DirectoryRoundTrip | Bootloader/BMFS/bmfs.c:105-106 | a directory comes back from its bytes |
| BmfsEntries.DirectoryBytesRoundTrip | Bootloader/BMFS/bmfs.c:105-106 | the bytes of a directory come back from the directory |
| BmfsEntries.RenamedHasName | Bootloader/BMFS/bmfs.c:697 | a copied name reads back, whatever the field held before |
| BmfsEntries.OverlongNameMovesStart | Bootloader/BMFS/bmfs.c:697 | the bytes of a name of 32 to 39 characters behind the 31st become the low bytes of the starting block; size and reserved blocks stay |
| BmfsEntries.NameOf32MovesToBlock0 | Bootloader/BMFS/bmfs.c:697 | a name of exactly 32 characters moves a file below block 256 onto block 0 |
| BmfsPlacement.ComparatorOrders | Bootloader/BMFS/bmfs.c:595-606 | below 2^31 blocks the narrowed difference orders live entries by start and puts deleted ones last |
| BmfsPlacement.ComparatorNarrows | Bootloader/BMFS/bmfs.c:605 | starts 2^31 + 1 apart compare the wrong way round |
| BmfsPlacement.ScanFinds | Bootloader/BMFS/bmfs.c:663-687 | from wherever the scan stands it finds the lowest fit; without one it goes by the stale ends of deleted entries |
| BmfsPlacement.PlacedWellIff | Bootloader/BMFS/bmfs.c:656-693 | with an end mark: the lowest gap that is big enough is taken, and the placement is wrong exactly when no gap is big enough and a deleted entry left room |
| BmfsPlacement.NoEndMarkPlacedWellIff | Bootloader/BMFS/bmfs.c:630-649 | without an end mark every file goes to block 1; right exactly when block 1 on is free or nothing can fit |
| BmfsPlacement.StaleExtentMisplaces | Bootloader/BMFS/bmfs.c:670-685 | a directory for which the new file lands inside a live one |
| BmfsPlacement.MissingEndMarkMisplaces | Bootloader/BMFS/bmfs.c:630-649 | a full directory with one deleted entry for which it does, though another gap is free |
| BmfsVolume.FlushedDir | Bootloader/BMFS/bmfs.c:706-708 | a written directory is read back and no data byte changes |
| BmfsVolume.FindFileFinds | Bootloader/BMFS/bmfs.c:203-229 | finds the one live entry with the name |
| BmfsVolume.CounterStaysIntIff | Bootloader/BMFS/bmfs.c:739-779 | the copy counter stays in `int` exactly up to 2^31 - 1 bytes; where it wraps the loop ends after 2^31 |
| BmfsVolume.WriteIsLocal | Bootloader/BMFS/bmfs.c:752-797 | write succeeds exactly when the file exists with room; it reads back as the bytes the loop stored, every other file as before, and only the size changes in the directory |
| BmfsVolume.WriteReadsBackIff | Bootloader/BMFS/bmfs.c:779-790 | what was written reads back exactly up to 2^31 bytes, while the full size is recorded |
| BmfsVolume.LargeFileIsCut | Bootloader/BMFS/bmfs.c:779 | a file of 3 GiB reads back as its first 2 GiB |
| BmfsVolume.WriteTouches | Bootloader/BMFS/bmfs.c:779-788 | no byte outside the stored ones and the size field changes |
| BmfsRuns.WithFileOkIff | Bootloader/BMFS/bmfs.c:695-704 | the extended directory is sound exactly when the chosen extent is free |
| BmfsRuns.CreateAddsFile | Bootloader/BMFS/bmfs.c:608-717 | a created file reads empty and every other as before; the volume stays sound exactly when the place was free |
| BmfsRuns.CreateRefusesIff | Bootloader/BMFS/bmfs.c:613-694 | create refuses, changing nothing, exactly when the name is taken, no entry is free or no gap is big enough |
| BmfsRuns.CutShortForgets | Bootloader/BMFS/bmfs.c:699-704 | with all entries used and the first one deleted, create forgets every other file |
| BmfsRuns.DeletedInFrontForgets | Bootloader/BMFS/bmfs.c:699-704 | a directory of 64 entries for which it does |
| BmfsRuns.EmptyNameEndsDirectory | Bootloader/BMFS/bmfs.c:697 | a file created with the empty name ends the directory at its entry: exactly the files behind it are forgotten |
| BmfsRuns.EmptyNameForgets | Bootloader/BMFS/bmfs.c:697 | a directory of which that leaves one file |
| BmfsRuns.DeletionMarkForgets | Bootloader/BMFS/bmfs.c:697 | a directory in which a file named by the deletion mark is created and lost |
| BmfsRuns.OverlongNameSoundIff | Bootloader/BMFS/bmfs.c:690-708 | after create with a name of 32 to 63 characters the extents are sound exactly when the name is shorter than 40 and the place its last characters move the file to is free |
| BmfsRuns.DeletionMarkIsGone | Bootloader/BMFS/bmfs.c:697 | a file whose name begins with the deletion mark cannot be found after its creation |
| BmfsRuns.DeleteRemoves | Bootloader/BMFS/bmfs.c:800-819 | delete removes that file and no other and keeps the volume sound |
| BmfsRuns.FormatEmpties | Bootloader/BMFS/bmfs.c:258-268 | a formatted volume is sound and holds no file |
| BmfsRuns.StepRefinesMap | Bootloader/BMFS/bmfs.c:203-229 | each safe command is the map update it stands for; a write of at most 2^31 - 1 bytes |
| BmfsRuns.RunRefinesMap | Bootloader/BMFS/bmfs.c:56-200 | over any run of writes, deletes, formats and creates that the two placement conditions allow, the volume stays sound and the disk holds exactly the files of the map |
| BmfsRuns.TidyCreateAppends | Bootloader/BMFS/bmfs.c:608-717 | without deleted entries create appends one entry and leaves the others |
| BmfsRuns.NoDeleteIsSafe | Bootloader/BMFS/bmfs.c:608-717 | every run without delete from a sound tidy volume is safe, and stays sound and tidy |
| BmfsRuns.NoDeleteRunFromFormat | Bootloader/BMFS/bmfs.c:258-717 | from a formatted disk on, any run of format, create and write keeps names distinct and files apart, and the disk holds exactly the files the commands say |
| BmfsLayout.BlocksAreWhole | Bootloader/BMFS/bmfs.c:102-619 | a disk is counted in whole blocks of 2097152 bytes |
| BmfsLayout.WriteGoesToItsBlock | Bootloader/BMFS/bmfs.c:776-783 | `write` goes through exactly when the data fit the reserved blocks of 2097152 bytes, and puts them where 2097152 times the starting block says |
| BmfsLayout.CreatedRoom | Bootloader/BMFS/bmfs.c:608-797 | after a sound `create` of n MiB a `write` goes through exactly up to (n + 1) / 2 blocks of 2097152 bytes, and the data are found at the place chosen |
| BmfsLayout.FirstFile | Bootloader/BMFS/bmfs.c:258-797 | on a formatted disk `create` of n MiB goes through exactly when the disk has (n + 1) / 2 + 2 blocks, and what is then written begins at byte 2097152 |
| BmfsLayout.FormatWrites | Bootloader/BMFS/bmfs.c:258-268 | `format` writes the tag and zeros to [1024, 1536), zeros to [4096, 8192), and no other byte |
| BmfsLayout.DeleteWrites | Bootloader/BMFS/bmfs.c:813-818 | `delete` sets the first byte of the record to 1 and changes no other byte |
| Bmfs.Utility.constructor | Bootloader/BMFS/bmfs.c:97-107 | the directory in memory is the one on the disk |
| Bmfs.Utility.Flush | Bootloader/BMFS/bmfs.c:706-708 | the disk changes in the directory bytes only, and agrees with memory again |
| Bmfs.Utility.Find | Bootloader/BMFS/bmfs.c:203-229 | the scan is the specified search |
| Bmfs.Utility.Count | Bootloader/BMFS/bmfs.c:630-649 | used entries and first free entry as specified |
| Bmfs.Utility.Place | Bootloader/BMFS/bmfs.c:663-687 | the scan over the sorted copy as specified |
| Bmfs.Utility.Record | Bootloader/BMFS/bmfs.c:695-704 | the directory with the new record and the moved end mark |
| Bmfs.Utility.Create | Bootloader/BMFS/bmfs.c:608-717 | the whole disk afterwards and the outcome |
| Bmfs.Utility.Read | Bootloader/BMFS/bmfs.c:720-749 | the bytes the loop copies before its counter wraps, from twice the starting block in MiB on, or nothing |
| Bmfs.Utility.CopyTo | Bootloader/BMFS/bmfs.c:778-783 | the loop, with its counter wrapping, stores the bytes before the wrap and changes no other |
| Bmfs.Utility.Write | Bootloader/BMFS/bmfs.c:752-797 | the whole disk afterwards and the outcome; which bytes that are say `BmfsLayout.WriteGoesToItsBlock` and `BmfsVolume.WriteTouches` |
| Bmfs.Utility.Delete | Bootloader/BMFS/bmfs.c:800-819 | the whole disk afterwards and the outcome: the deletion mark is set if the file exists |
| Bmfs.Utility.Format | Bootloader/BMFS/bmfs.c:258-268 | the whole disk afterwards: tag and empty directory |
| CStrings.StrNCmpIsPrefix | common/string.c:59-68 | with n at least 1 the result is 0 exactly when the first n characters of the second string begin the first |
| CStrings.StrNCompare | common/string.c:59-68 | the loop computes the specified difference |
| PathNames.SplitOfJoin | Kernel/drivers/fs.c:40-84 | components come back from the path joined from them |
| PathNames.JoinOfSplit | Kernel/drivers/fs.c:40-84 | a path comes back from its components |
| PathNames.BaseAndNameOfJoin | Kernel/drivers/fs.c:300-339 | base directory and file name are the path without its last component and that component, and rejoin to the path |
| PathNames.BaseAndNameOfPath | Kernel/drivers/fs.c:300-339 | of any path: base directory, slash and file name are the path, and the name has no slash; a path without a slash behind its first character is split there |
| PathNames.Basedir | Kernel/drivers/fs.c:300-328 | the loop finds the last slash |
| PathNames.Filename | Kernel/drivers/fs.c:330-339 | the loop finds the last slash |
| Namespace.FindChildIsLowestMatch | Kernel/drivers/fs.c:53-70 | the slot found is the lowest whose name has the component as a prefix |
| Namespace.WalkIsResolve | Kernel/drivers/fs.c:40-84 | on a path without empty components the walk is the recursive resolver |
| Namespace.EmptyComponentLeadsNowhere | Kernel/drivers/fs.c:53-70 | where directories have names a path with an empty component, such as "/a/" or "/a//b", leads nowhere |
| Namespace.FindChildOfNothing | common/string.c:59-68 | the child found for an empty component is the first without a name, or in the middle of a path the first whose name begins with a slash |
| Namespace.MkdirKeepsNamedIff | Kernel/drivers/fs.c:341-376 | mkdir makes a directory with a name exactly when the path has more than one character and does not end in a slash |
| Namespace.FirstMountIsRoot | Kernel/drivers/fs.c:151-175 | the first mount makes its device the root exactly when the path is "/", and is refused otherwise |
| NamespaceTree.WalkStaysBelow | Kernel/drivers/fs.c:40-84 | what the walk finds lies below where it starts |
| NamespaceTree.MkdirKeepsSound | Kernel/drivers/fs.c:341-376 | mkdir keeps the trees and the device borders |
| NamespaceTree.MountKeepsSound | Kernel/drivers/fs.c:151-200 | mount keeps the trees and the device borders when mountinfo has a free slot; that the two trees are apart follows |
| MountTable.UnrecordedMountKeepsTree | Kernel/drivers/fs.c:184-195 | with mountinfo full the directories are still a tree after the mount |
| MountTable.UnrecordedMountBreaksOneBorder | Kernel/drivers/fs.c:184-195 | the slot it fills, and no other, is a border between devices without a record |
| MountTable.LinkKeepsTreeIff | Kernel/drivers/fs.c:177-186 | filling a free slot keeps a tree exactly when the directory hangs nowhere yet and the slot is not below it |
| MountTable.UnrecordedMountKeepsTreeIff | Kernel/drivers/fs.c:151-195 | a mount of a device that is not recorded keeps a tree exactly when its root hangs nowhere yet and the mount point is not below it |
| MountTable.FullTableIsReached | Kernel/drivers/fs.c:151-200 | seventeen devices and sixteen mounts at "/" lead from boot to a full table |
| MountTable.SecondMountMakesCycle | Kernel/drivers/fs.c:151-195 | from there mounts at "/" and at "/b" both go through and leave a directory below itself, with two ways to it |
| NamespaceTree.UnmountKeepsSound | Kernel/drivers/fs.c:202-232 | unmount keeps them whatever its path leads to by then |
| NamespaceTree.RunKeepsSound | Kernel/drivers/fs.c:151-376 | every run of these keeps the trees and the device borders |
| NamespaceTree.AtMostOneWay | Kernel/drivers/fs.c:234-298 | no directory can be reached from another by two ways |
| NamespaceTree.DevicesChangeAtMounts | Kernel/drivers/fs.c:251-267 | the device changes from parent to child exactly at the root of a mounted device |
| NamespaceEffects.RunsGiveTrees | Kernel/drivers/fs.c:151-376 | after any run from boot, two ways to the same directory are the same way |
| NamespaceEffects.MountThenUnmount | Kernel/drivers/fs.c:151-232 | unmounting right after a mount gives the filesystem back as it was |
| NamespaceEffects.UnmountsIff | Kernel/drivers/fs.c:202-232 | unmounting takes the device out exactly when its recorded path still leads to the directory its root hangs in, and otherwise changes nothing |
| NamespaceEffects.ShadowedMountStays | Kernel/drivers/fs.c:222-229 | a mount at "/m" stays once a directory "mm" lies in a lower slot |
| NamespaceEffects.NestedMountLosesItsPath | Kernel/drivers/fs.c:222 | a mount point below another mount stops resolving when that is unmounted |
| NamespaceEffects.TraverseIsResolve | Kernel/drivers/fs.c:18-87 | for a path of good components fs_traverse is the resolver |
| NamespaceEffects.MkdirThenResolve | Kernel/drivers/fs.c:341-376 | after mkdir the path leads to the new directory exactly when no lower slot holds a name with the new one as a prefix |
| NamespaceEffects.PrefixIsTakenForName | Kernel/drivers/fs.c:65 | "a" leads to a directory "ab" in the first slot |
| NamespaceEffects.RanksAreBounded | Kernel/drivers/fs.c:273 | the recursion of dumpdir has a bound |
| NamespaceEffects.DumpPrintsOnce | Kernel/drivers/fs.c:234-275 | the dump prints every directory below exactly once and nothing else |
| NamespaceEffects.DumpInOrder | Kernel/drivers/fs.c:234-275 | a directory is printed before everything under it, and what a lower slot leads to before what a higher one does |
| FileSystem.DirectoryTree.Traverse | Kernel/drivers/fs.c:18-87 | the loops on the linked directories find what the specified walk finds |
| FileSystem.DirectoryTree.FindChild | Kernel/drivers/fs.c:53-70 | the scan of the slots |
| FileSystem.DirectoryTree.FindFreeChild | Kernel/drivers/fs.c:89-98 | the first free slot |
| FileSystem.DirectoryTree.FindMount | Kernel/drivers/fs.c:140-149 | the slot that records the device |
| FileSystem.DirectoryTree.FindFreeMount | Kernel/drivers/fs.c:129-138 | the first free record |
| FileSystem.DirectoryTree.AddDevice | Kernel/drivers/fs.c:475-486 | a device with an empty root directory that hangs nowhere |
| FileSystem.DirectoryTree.MakeDir | Kernel/drivers/fs.c:341-376 | the whole graph afterwards; null exactly when there is no root device or no free slot |
| FileSystem.DirectoryTree.MountDevice | Kernel/drivers/fs.c:151-200 | the whole filesystem afterwards |
| FileSystem.DirectoryTree.UnmountDevice | Kernel/drivers/fs.c:202-232 | the whole filesystem afterwards |
| FileSystem.DirectoryTree.DumpDir | Kernel/drivers/fs.c:234-275 | the loop and its recursion print the directories of the specified dump, in its order |
| CellStream.PutInTwo | Kernel/drivers/video.c:157-173 | writing in two parts is writing at once |
| CellStream.CharIsDisplayed | Kernel/drivers/video.c:25-27 | the low byte of a cell is its character; the high byte is the colour for a character below 128 and 255 for any other |
| CellStream.WrittenCharShows | Kernel/drivers/video.c:157-185 | a character is shown, in its colour, where the cursor was, or a row further up when that was the last place of the screen |
| CellStream.TextShows | Kernel/drivers/video.c:187-202 | the cells of a text are those of its characters in order: one cell that shows the character, four spaces for a tab, and for a line break spaces up to a multiple of 80 |
| CellStream.PlainTextShows | Kernel/drivers/video.c:187-202 | a text without tabs and line breaks takes as many cells as it has characters, each showing its own |
| CellStream.TextStep | Kernel/drivers/video.c:187-202 | each character appends its cells to the text written so far |
| CellStream.LineInSteps | Kernel/drivers/video.c:220-229 | break, text and break make one line |
| CellStream.NextPlace | Kernel/drivers/video.c:163-172 | row and column follow from the number of cells written |
| CellStream.PutOnePictures | Kernel/drivers/video.c:157-168 | a cell that does not fill the screen changes one place of the window |
| CellStream.PutLastPictures | Kernel/drivers/video.c:170-248 | the cell that fills it moves the window down a row |
| CellStream.WindowIsTheEnd | Kernel/drivers/video.c:231-251 | the window shows the last cells written, counted back from the cursor, and paper behind it |
| Console.Video.WriteFullCharAt | Kernel/drivers/video.c:116-120 | one cell of the buffer, and of the video memory when the console is shown |
| Console.Video.Sync | Kernel/drivers/video.c:40-54 | the video memory becomes the buffer of the console, if it is the current one |
| Console.Video.ClearLine | Kernel/drivers/video.c:144-151 | that row becomes blank in the current colour, no other changes |
| Console.Video.Scroll | Kernel/drivers/video.c:231-251 | every row takes the one below, the last is blank, and the memory stays in step |
| Console.Video.PutCell | Kernel/drivers/video.c:157-173 | the console shows the stream with one cell more |
| Console.Video.WriteChar | Kernel/drivers/video.c:179-185 | the stream grows by the cells of the character; any but a line break is seen, in the colour of the console, where the cursor was |
| Console.Video.WriteNl | Kernel/drivers/video.c:207-218 | spaces up to the end of the row, a whole row at its beginning |
| Console.Video.WriteString | Kernel/drivers/video.c:187-205 | the stream grows by the cells of the text, a tab as four spaces |
| Console.Video.WriteLine | Kernel/drivers/video.c:220-229 | the text on rows of its own |
| Console.Video.Blank | Kernel/drivers/video.c:122-142 | a blank buffer at the first place, shown if current |
| Console.Video.ClearScreen | Kernel/drivers/video.c:122-142 | every place shows a space in the colour of the console; the stream starts anew; the other consoles stay |
| Console.Video.ChangeConsole | Kernel/drivers/video.c:285-300 | the video memory shows the new console; no console changes |
| Console.Video.Preinit | Kernel/drivers/video.c:69-84 | seven blank consoles and the dark one, the first shown |
| Numerals.NumeralIsRight | common/string.c:116-146 | for base 2 to 36 and any 64-bit value: the only digit string without leading zero whose value is the input, of at most 64 digits; no other such string prints the same |
| Numerals.NumeralsDiffer | common/string.c:116-146 | different numbers print differently |
| Numerals.DigitCharacters | common/string.c:125 | the digits 0 to 35 are the characters 0 to 9 and A to Z, in that order |
| Numerals.UintToBase | common/string.c:116-146 | the buffer holds that string and its NUL; nothing behind it changes; the length is returned |
| Numerals.Reverse | common/string.c:133-143 | the first n characters in the other direction, in place |
| Numerals.Ctoi | Userland/libc/libc.c:327-335 | the decimal value modulo 2^32, and the value itself while no sum leaves `int` |
| Numerals.StringNumeric | Userland/libc/libc.c:312-321 | true exactly when every character is a digit |
| Numerals.NumericCharacters | Userland/libc/libc.c:323-325 | the characters that count as digits are those ten |
| Numerals.PrintThenRead | Userland/libc/libc.c:327-335 | reading a printed number gives the number |
| Numerals.ReadsWithinIntIff | Userland/libc/libc.c:332 | no intermediate result leaves `int` exactly for values up to 2^31 - 1 - 48 |
| Numerals.FirstOverflow | Userland/libc/libc.c:332 | 2147483600 fits in `int`, and reading it overflows |
| Tokenizer.LeftStrip | Userland/ShellModule/shellModule.c:13 | moves past the spaces |
| Tokenizer.NextToken | Userland/ShellModule/shellModule.c:213-238 | one argument, character by character, quoted or not, and where the next begins |
| Tokenizer.Tokenize | Userland/ShellModule/shellModule.c:199-241 | the arguments in order; what they are says `EveryCommandHasParts` |
| Tokenizer.PartsThenTokenize | Userland/ShellModule/shellModule.c:199-241 | any sequence of bare words and quoted strings, with spaces before, between and behind, where only a bare word needs one behind it, and with or without an unclosed string at the end, gives exactly those words and strings |
| Tokenizer.EveryCommandHasParts | Userland/ShellModule/shellModule.c:199-241 | every command is such a sequence, so this says what the arguments of every command are |
| Tokenizer.ArgumentsFit | Userland/ShellModule/shellModule.c:198-241 | at most (L + 1) / 2 arguments, so 512 characters fit 256 slots |
| Tokenizer.ArgumentUnterminatedIff | Userland/ShellModule/shellModule.c:208-224 | of a command of at most 512 characters an argument fills its buffer without a terminator exactly when the command is 512 characters of one unquoted argument |
| Tokenizer.LongArgumentIsUnterminated | Userland/ShellModule/shellModule.c:208 | 512 times the same letter is such a command |
| Tokenizer.BoundIsMet | Userland/ShellModule/shellModule.c:205-241 | commands that reach the bound |
| Tokenizer.QuoteThenTokenize | Userland/ShellModule/shellModule.c:205-241 | quoting strings without quotes and joining them with spaces is undone |
| Packer.Source.Read | Toolchain/ModulePacker/main.c:91-92 | a chunk, and the end-of-file mark when more was asked for than there is |
| Packer.Writer.WriteFile | Toolchain/ModulePacker/main.c:87-98 | the whole file is appended |
| Packer.Writer.WriteSize | Toolchain/ModulePacker/main.c:79-84 | the size, cut to 32 bits |
| Packer.Writer.BuildImage | Toolchain/ModulePacker/main.c:30-63 | the target is the image of the files |
| ModuleImage.MoreCopied | common/string.c:34-43 | copying in steps between places apart is copying at once |
| ModuleImage.RecordsLoad | Kernel/moduleLoader.c:9-26 | every module arrives byte for byte and nothing else in memory changes |
| ModuleImage.PackThenLoad | Kernel/moduleLoader.c:9-33 | loading right behind the kernel of a packed image puts every module, byte for byte, at its target, when the targets are clear of each other and of the records |
| ModuleLoader.Memory.CopyWords | common/string.c:31-35 | the word path copies the bytes |
| ModuleLoader.Memory.CopyBytes | common/string.c:39-43 | the byte path copies the bytes |
| ModuleLoader.Memory.MemCpy | common/string.c:12-47 | whichever path is taken, memory is the byte copy |
| ModuleLoader.Memory.LoadModule | Kernel/moduleLoader.c:19-26 | one record: the bytes at the target, the pointer behind the record |
| ModuleLoader.Memory.LoadModules | Kernel/moduleLoader.c:9-17 | all records, one after the other |

## Left out

- Physical addresses at or above 512 MB: reads there give zero and stores are dropped.
- The kernel's own heap (`malloc` in Kernel/mem.c:18-43), which never frees; names, argument vectors and task
  structures live there and are values of the model.
- CR3 writes, interrupt flags and the switch of stacks: sections with interrupts off are atomic steps.
- The fault handler's kill (Kernel/paging.c:342-347 and 366-371): the signal and the reschedule. In the model such
  a fault leaves memory as it is.
- The branch `i == 15` in the stack loop (Kernel/paging.c:223-225) can never be taken and is not modelled.
- Pids are unbounded numbers; their 64-bit wrap is not modelled.
- When tasks are paused, joined and killed (semaphores, signals, the second half of `task_join`): these are arbitrary
  changes of any task's state between calls of `task_next`.
- TaskRing.Scheduler.TaskRemove: console focus, keyboard handlers and the freeing of memory are left out; the address
  space is `KernelMemory.MemoryManager.Discard`. When the current task or the null task is removed the contract says
  what becomes of the ring, and the runs of the scheduler end there: `current` or `null_task` then points outside it.
- TaskRing.Scheduler.TaskCreate: the address space is `KernelMemory.MemoryManager.NewTask`, and its stack pointer is a
  parameter here.
- KernelRuns.StepKeepsInv: stores below 4 MB (the kernel image, with `pmm_stack_current`, the shared tables' pointers
  and `originalCR3`), in [6 MB, 10 MB) (the kernel heap, with the `cr3` of every task) and in [10 MB, 12 MB) (the frame
  stack) are no event. All of it is mapped in every process; the code does nothing against such stores, and these
  variables are kept outside the modelled memory.
- `aux` (Kernel/paging.c:12) is a pointer that is never assigned, so the source keeps its fields at address 0. The
  model has them outside memory.
- The accessed and dirty bits, which the processor sets in present entries.
- BMFS `initialize`, `list` and the command line. The order qsort gives is a parameter: any order in which no entry
  compares greater than a later one, where two deleted entries may stand either way.
- BmfsRuns.CreateAddsFile: for names of 1 to 31 characters that do not begin with the deletion mark; the effect of the
  others is stated by `EmptyNameEndsDirectory`, `DeletionMarkIsGone` and `OverlongNameSoundIff`. Names of 64
  characters and more run on over the next entry; what follows from that is not stated.
- Bmfs.Utility.Create: names of at most 31 characters; longer ones are `BmfsRuns.CreatedLong`.
- BmfsVolume.WriteIsLocal: the language leaves the copy counter undefined past 2^31 - 1; the model lets it wrap.
  Numerals.Ctoi does the same for its sums.
- Disks are 6 MiB or more, the size `initialize` demands.
- Files in directories (`fs_open`, leaves, file contents through a device), `fs_opendir`, and the lines `dumpdir`
  draws around the names.
- FileSystem.DirectoryTree.MakeDir: the parent must resolve; the code follows a null pointer otherwise.
- FileSystem.DirectoryTree.MountDevice: the mount point must resolve, for the same reason.
- FileSystem.DirectoryTree.UnmountDevice: the recorded path must resolve, for the same reason.
- Recolouring a screen in place, writing at a given place, clearing a numbered line, resetting the cursor and
  changing the console without a sync (Kernel/drivers/video.c:91-98, 153-155, 175-177, 285-292, 315-321): after
  these the buffer is no longer a window onto what was written, or the memory no longer the current buffer.
- Video ports: the hardware cursor. Colours are bytes.
- Tokenizer: the history, the command table and starting the task; the message about an unclosed quote.
- ModuleLoader.Memory.MemCpy: overlapping places, which the source excludes.
- The source's files, devices and user input are parameters; debug output is left out.
- Message queues, semaphores, signals, shared memory, the RAM disk, keyboard, sound and clock drivers, and the
  system call dispatch: short code whose members would be easy, or whose meaning hangs on assembly that is not
  part of this model.
