# ZynexOS in Dafny

A model of the parts of ZynexOS that are hardest to get right, with proofs over every input, every
run or every reachable state. ZynexOS is a teaching kernel for RISC-V with user-level libraries and a
file server. Each module stands for one component:

- `Sv48`, `PhysMem`, `Translation`, `Pmap`, `Sweep`, `Kernel`: four-level page tables, physical pages
  with reference counts and a free list, and the system calls that map, unmap and send pages. `Kernel`
  is the mutable kernel; the other modules hold the address arithmetic, the invariant and the lemmas.
  A page's count is compared with the set of all places that name it: leaf entries, table entries and
  environment roots; a table that `env_free` walks away from keeps a reference nobody holds, and is
  counted as lost. The tree is compared with a flat map from (environment, address) to entry.
  `WidePerm` is what an unchecked `perm` does, `CountLimit` a memory with a count at its 16-bit limit,
  and `Startup` builds small kernels.
- `CowFork`: user-level copy-on-write fork against an eager-copy reference, over whole runs.
- `Sched`, `Smp`, `EnvIds`: the scheduler, the kernel lock and IPC as a state machine over CPUs, and
  environment ids under wrapping 32-bit arithmetic. `Messages` is IPC whole: the fields and statuses of
  `Smp` beside the page tables of `Kernel`.
- `PipeRing`, `PipeClose`, `PipeEnd`: the pipe's ring buffer at the grain of single loads and stores,
  its reference-count test for a closed end, and the two together at the end of the data.
- `Malloc`: the user-level bump allocator with counts in page tails.
- `Bitmap`, `Blocks`, `Disk`, `FileSystem`, `Transfer`, `FileIo`: the file server, from bitmap words to
  byte-level reads and writes. Indirect blocks are the same bytes as data blocks, read as little-endian
  words, so that ownership is what keeps pointers and data apart.
- `Format`: fsformat, whose image the file server mounts.
- `Flash`, `BlockCache`: flash chunking and sector addressing, and the write-back block cache.
- `Records`, `Persist`: File records, super block and bitmap in disk words, and the file server over
  the block cache, across fs_sync and a restart from the flash alone.
- `Stabs`: the debug-symbol binary search, whose key changes while it runs.

Code that updates state is a class or a method with loops, proved against functions and predicates on
values; protocols are state machines whose runs are sequences of states. Some promises turn out false
of the code. For those the model keeps the code's behaviour and proves exactly when the promise holds:

- `env_free` sweeps only top-level slot 0. It loses no table if and only if nothing was mapped under
  another slot, so every environment with a stack leaks tables (`Sweep.FreeExactIff`,
  `Startup.StackLeaks`). Over runs that create and free environments every count is still the number of
  places that name the page, and one more for each lost table (`Kernel.Kernel.Run`, `PhysMem.CountsCover`).
- `pp_ref` has 16 bits: one more mapping keeps counts exact if and only if the page had fewer than
  65535 references (`Pmap.InsertExactIffNoWrap`); `CountLimit.CountWraps` is a state where it had not.
- `sys_page_map` stores an unchecked `perm`. Counts stay exact if and only if the bits of `perm` from 10
  to 28 are already in the page's index (`WidePerm.CountsExactIff`); the entry is well formed as well
  if and only if all bits above 9 are in the page number (`WidePerm.InvariantIff`).
- A copy-on-write fault is invisible if and only if nothing is mapped at the temporary address
  (`CowFork.FaultInvisibleIffTempFree`). Fork keeps a user's mark on a page if and only if the page is
  shared, or neither writable nor copy-on-write (`CowFork.MarkSurvivesForkIff`).
- `env_destroy` and `sys_env_set_status` keep the invariant behind CPU exclusivity if and only if the
  statuses are those their lemmas give. After a destroy of a dying environment, or a wake-up of a
  receiver, that the scheduler would choose next, legal steps make it current on two CPUs
  (`Smp.DyingRunsTwice`, `Smp.WokenReceiverRunsTwice`); a status of RUNNING or DYING leaves it current
  on none (`Smp.SetStatusMisplaces`).
- The wait for a CPU is bounded while the CPU has a current environment (`Smp.BoundedWaitingRun`); when
  it has not, the search starts at slot 0 and there is no bound (`Smp.StarvedWithoutCurrent`).
- A pipe read tests for empty and then for closed. It returns 0 with nothing unread if and only if
  nothing was written between the two tests (`PipeEnd.ZeroAtEndIff`).
- `sys_ipc_recv` documents that an address at or above UTOP means no page is wanted; the code then keeps
  the address of an earlier receive, and a page sent is mapped there (`Messages.NothingMappedIff`).
- `stab_binsearch` misses when a stab one past the address is still in range at the first hit, and its
  not-found signal is not the documented one (`Stabs.StabBinsearch`, `Stabs.Outcome`).
- `malloc` leaks a page if and only if it opens a fresh run for a whole number of pages, and its search
  leaves the arena if and only if it starts at or past the last page.
- `alloc_block` failing stores an error code as a block number, so ownership survives a fetch, read or
  write if and only if the disk has the blocks it needs.
- `file_get_block` past the end of a file leaves a block that truncation will not find: over any run
  this does not happen if and only if every fetch was within its file (`Transfer.RunTailIff`). Such
  blocks are lost when a resize drops the indirect block (`FileSystem.ResizeLosesNothingIff`).
- Flash errors are ignored, so a block past number 6143 reaches flash if and only if it was not written
  or is blank (`BlockCache.SyncReachesFlashIff`).
- fsformat on an empty list makes a root directory that names an unallocated block (`Format.Format`).

`dafny verify dfyconfig.toml` checks the project.

## Model

| member | source | states |
|---|---|---|
| `Sv48.IndicesOfPgaddr` | inc/riscv/mmu.h:37-49 | splitting an address built by PGADDR gives back the four indices and the offset |
| `Sv48.PgaddrOfIndices` | inc/riscv/mmu.h:37-49 | PGADDR inverts the split on every 48-bit address |
| `Sv48.SamePathIffSameVpn` | inc/riscv/mmu.h:37-42 | two addresses reach the same leaf entry iff they agree on bits 12 to 47; bits above 47 alias |
| `Sv48.PteRoundTrip` | kern/riscv/pmap.h:20-24 | the entry built for a page is valid, names that page to every reader, and keeps its permission bits |
| `Sv48.SamePpnIffSameFrame` | kern/riscv/pmap.c:609-666 | the masked comparison in page_insert agrees with pa2page on which page an entry names |
| `PhysMem.FreeIsUnheld` | kern/riscv/pmap.c:387-449 | under the invariant nothing names a page on the free list |
| `PhysMem.CountsCover` | kern/riscv/pmap.c:387-449 | a count is the number of places that name the page, and one more iff it is a lost table; no table has two parents and no free page has one |
| `PhysMem.SetLeafShape` | kern/riscv/pmap.c:609-666 | storing a leaf entry keeps every table a tree node at its level |
| `Translation.UniqueLeaf` | kern/riscv/pmap.c:474-496 | two paths that end in the same leaf table belong to one environment and share their upper indices |
| `Translation.PteAfterSetLeaf` | kern/riscv/pmap.c:609-747 | a store to one leaf entry changes the translation of that environment and page alone |
| `Translation.PteAfterLink` | kern/riscv/pmap.c:498-539 | linking a clear table changes no translation of any environment |
| `Translation.PteAfterUnlink` | kern/riscv/env.c:412-495 | unlinking an empty table changes no translation of any environment |
| `Translation.PteAfterAddRoot` | kern/riscv/env.c:120-174 | a new directory maps nothing and disturbs nobody |
| `Translation.PteAfterDropRoot` | kern/riscv/env.c:412-495 | dropping a directory removes that environment's translations only |
| `Translation.DropRootShape` | kern/riscv/env.c:412-495 | dropping a directory keeps the forest typed, with the tables it named lost, and takes away one reference |
| `Pmap.SetLeafKeeps` | kern/riscv/pmap.c:609-747 | writing a leaf entry with counts following keeps tree shape, exact counts and free list, and maps or unmaps only that page |
| `Pmap.MapInKeeps` | kern/riscv/pmap.c:609-666 | pp_ref++ and the store on an unmapped address keep the invariant and insert exactly that mapping |
| `Pmap.RemapKeeps` | kern/riscv/pmap.c:609-666 | re-inserting the mapped page only changes permissions, counts included |
| `Pmap.RemovedReady` | kern/riscv/pmap.c:609-666 | removing the old page clears the entry and leaves the page about to be inserted allocated and its count untouched |
| `Pmap.MappedNotHead` | kern/riscv/pmap.c:609-666 | a mapped page is never on the free list, so the fix-up for a page at the head of the list never fires |
| `Pmap.LastLevel` | kern/riscv/pmap.c:498-539 | linking the last table completes the path to the leaf, keeps the invariant and changes no translation |
| `Pmap.RemovedConserves` | kern/riscv/pmap.c:717-747 | removing a mapping loses no page: each is free or counted afterwards |
| `Pmap.InsertExactIffNoWrap` | inc/riscv/memlayout.h:193 | with a 16-bit count, one more mapping keeps the invariant iff the page had fewer than 65535 references |
| `Pmap.CountWithinEntries` | inc/riscv/memlayout.h:193 | a count is at most the number of table entries, so 127 pages of memory cannot make it wrap |
| `CountLimit.CountWraps` | inc/riscv/memlayout.h:193 | a consistent state with a page mapped 65535 times, which one more mapping leaves in use with count 0 |
| `Pmap.StoredCountsIff` | kern/riscv/pmap.c:609-666 | with any word stored for the page whose count was raised, counts stay exact iff its readers find that page |
| `Pmap.StoredGoodIff` | kern/riscv/pmap.c:609-666 | the whole invariant is kept iff the word is odd and has that page number in bits 10 and up |
| `WidePerm.WideWordNarrow` | kern/riscv/pmap.c:609-666 | within PTE_SYSCALL the bitwise or gives the entry that names the page |
| `WidePerm.WideNamesPageIff` | kern/riscv/syscall.c:249-302 | with any perm the readers find the page meant iff bits 10 to 28 of perm are in its index |
| `WidePerm.CountsExactIff` | kern/riscv/syscall.c:249-302 | inserting a page at an unmapped address with any perm keeps counts exact iff bits 10 to 28 of perm are in its index |
| `WidePerm.InvariantIff` | kern/riscv/syscall.c:249-302 | it keeps the whole invariant iff all bits of perm above 9 are in the page number |
| `WidePerm.WidePermExample` | kern/riscv/syscall.c:249-302 | a state in which perm 0x400 makes an entry for the next page and breaks the counts |
| `Pmap.AllocUndone` | kern/riscv/syscall.c:193-231 | when sys_page_alloc frees the page it could not map, every translation is as before and no page is lost |
| `Pmap.AllocInserted` | kern/riscv/syscall.c:193-231 | a successful sys_page_alloc maps exactly one address and conserves pages |
| `Pmap.RootedGood` | kern/riscv/env.c:120-174 | a page with clear owned slots becomes a root; counts stay exact and the new space is empty |
| `Sweep.EntrySwept` | kern/riscv/env.c:412-495 | removing the page under one leaf entry clears that entry and leaves every directory and upper table as it was |
| `Sweep.SweptDrop` | kern/riscv/env.c:412-495 | releasing an emptied table keeps counts exact and every leaf count in step with slot-0 mappings |
| `Sweep.DroppedGood` | kern/riscv/env.c:412-495 | an empty table that leaves its slot loses its only reference and is freed |
| `Sweep.FreeExactIff` | kern/riscv/env.c:412-495 | after env_free no table is lost iff nothing was mapped outside slot 0 |
| `Sweep.LeakBreaksCount` | kern/riscv/env.c:412-495 | a table under another slot is left with a count of one that no place holds |
| `Sweep.StackDefeatsSweep` | kern/riscv/env.c:369-371 | every environment whose stack was mapped by load_icode is in the leaking family |
| `Sweep.EnvFreedAfter` | kern/riscv/env.c:412-495 | the sweep and the release of the directory add up: the invariant holds, other spaces are kept, each page loses exactly its slot-0 mappings, no page is in limbo |
| `Startup.StackLeaks` | kern/riscv/env.c:369-495 | a kernel in which an environment with a stack came and went, and a table is lost |
| `Kernel.Kernel.constructor` | kern/riscv/pmap.c:319-373 | the free list after page_init is exactly the usable pages, acyclic, with nothing mapped |
| `Kernel.Kernel.PageAlloc` | kern/riscv/pmap.c:387-412 | takes the head of the list, cleared, or fails when it is empty |
| `Kernel.Kernel.PageFree` | kern/riscv/pmap.c:418-436 | an unreferenced page joins the list, which stays acyclic and duplicate-free |
| `Kernel.Kernel.PageDecref` | kern/riscv/pmap.c:442-449 | one count drops by one; the page is freed exactly at zero |
| `Kernel.Kernel.WalkThrough` | kern/riscv/pmap.c:474-496 | finds the leaf table iff all three upper levels exist |
| `Kernel.Kernel.CreateLevels` | kern/riscv/pmap.c:498-539 | builds the path, taking one page for each missing table, or, iff there are fewer free, leaves what it built linked with one reference each; no translation changes |
| `Kernel.Kernel.PgdirWalk` | kern/riscv/pmap.c:541-556 | never changes a translation; fails with create iff the walk lacks more tables than there are free pages |
| `Kernel.Kernel.PageLookup` | kern/riscv/pmap.c:679-700 | returns the page the flat map gives for the address |
| `Kernel.Kernel.PageRemove` | kern/riscv/pmap.c:717-747 | deletes that mapping alone; its page loses one reference and is freed with the last |
| `Kernel.Kernel.Replace` | kern/riscv/pmap.c:609-666 | inserting over a mapping drops the old page's reference and installs the new one |
| `Kernel.Kernel.PageInsert` | kern/riscv/pmap.c:609-666 | on success the address maps to the page with the permissions and every other translation is unchanged; fails iff the walk lacks more tables than there are free pages; counts stay exact |
| `Kernel.Kernel.SysPageAlloc` | kern/riscv/syscall.c:193-231 | each error exactly when it applies, changing no translation; on success one new mapping, of the page that headed the free list; no page lost |
| `Kernel.Kernel.SysPageMap` | kern/riscv/syscall.c:249-302 | each error exactly when it applies, changing no translation; on success exactly the requested shared mapping |
| `Kernel.Kernel.SendPage` | kern/riscv/syscall.c:397-421 | the page half of an IPC send: each error exactly when it applies, else the sender's page at the receiver's address and nothing else |
| `Kernel.Kernel.SysPageUnmap` | kern/riscv/syscall.c:311-334 | refuses bad addresses, otherwise removes exactly that mapping |
| `Kernel.Kernel.SweepSlot0` | kern/riscv/env.c:412-495 | the nested loops empty slot 0, releasing each table only once it is empty |
| `Kernel.Kernel.EnvFree` | kern/riscv/env.c:412-495 | removes the environment keeping the invariant; each page loses exactly its slot-0 mappings; no table is lost iff only slot 0 was used |
| `Kernel.Kernel.EnvSetupVm` | kern/riscv/env.c:120-174 | the new space maps nothing and other spaces are kept; fails, changing nothing, iff no page is free |
| `Kernel.Kernel.Perform` | kern/riscv/syscall.c:193-334 | one call is performed iff the source would survive it with its counts, with the result and effect its specification gives |
| `Kernel.Kernel.Run` | kern/riscv/syscall.c:193-334 | any run of mapping calls, page sends and creations and releases of environments goes through states each related to the next by what the call does; in all of them counts are exact but for lost tables, no free page is in use and no page is in limbo; it stops early only at a call the source would not survive |
| `CowFork.ForkKeepsInv` | lib/i386/fork.c:127-181 | fork keeps every writable unshared page with one owner |
| `CowFork.ForkRefinesCopy` | lib/i386/fork.c:72-109 | duppage on every page gives parent and child the views an eager copy would |
| `CowFork.FaultKeepsInv` | lib/i386/fork.c:14-59 | handling a write fault keeps the sharing invariant |
| `CowFork.FaultInvisible` | lib/i386/fork.c:14-59 | handling a write fault changes no environment's view |
| `CowFork.WriteRefines` | lib/i386/fork.c:14-59 | a write, with or without a fault, does to all views what a write to a private copy does |
| `CowFork.RunRefinesEagerCopy` | lib/i386/fork.c:14-181 | for every run of forks, loads and stores by any environments, every view and every answer equals the eager-copy reference |
| `CowFork.FaultInvisibleIffTempFree` | lib/i386/fork.c:14-59 | the fault is invisible iff nothing was mapped at the temporary address |
| `CowFork.TempPageLost` | lib/i386/fork.c:14-59 | a space in which a fault removes the environment's own page at the temporary address |
| `CowFork.MarkSurvivesForkIff` | lib/i386/fork.c:72-109 | exactly which entries keep a user-defined mark across fork |
| `CowFork.Machine.Duppage` | lib/i386/fork.c:72-109 | the two mapping calls, with their order, give the entries the specification gives |
| `CowFork.Machine.DupAll` | lib/i386/fork.c:127-181 | the nested loops, skipping absent tables, duplicate every page below the stack top |
| `CowFork.Machine.Fork` | lib/i386/fork.c:127-181 | the child's space, the duplication and the exception stack add up to the whole-space fork |
| `CowFork.Machine.Pgfault` | lib/i386/fork.c:14-59 | the allocate, copy, remap, unmap sequence is the specified fault step |
| `Sched.Pick` | kern/riscv/sched.c:49-87 | the loop picks the first runnable environment after the current one, the current one if it runs and none is, or none |
| `Sched.ChosenUnique` | kern/riscv/sched.c:49-87 | that description determines the choice |
| `Sched.Closer` | kern/riscv/sched.c:49-87 | each yield that passes over a runnable environment brings the index closer to it, whatever other CPUs do |
| `Sched.BoundedWaiting` | kern/riscv/sched.c:49-87 | an environment that stays runnable is chosen within NENV-1 yields |
| `Sched.BoundAttained` | kern/riscv/sched.c:49-87 | from any current environment, NENV-2 yields in which an environment stays runnable and is never chosen |
| `Smp.AcquireKeeps` | kern/riscv/spinlock.c:59-110 | taking the free lock keeps at most one holder |
| `Smp.ReleaseKeeps` | kern/riscv/spinlock.c:59-110 | releasing it keeps lock and CPU modes in agreement |
| `Smp.RunEnvKeeps` | kern/riscv/env.c:552-591 | switching to a runnable environment keeps every running one on exactly one CPU |
| `Smp.FreeCurrentKeeps` | kern/riscv/trap.c:219-278 | collecting a dying current environment keeps the invariant |
| `Smp.HaltKeeps` | kern/riscv/sched.c:95-143 | halting with nothing to run keeps the invariant |
| `Smp.StepKeeps` | kern/riscv/trap.c:219-278 | every legal step of any CPU keeps the invariant |
| `Smp.SmpExclusivity` | kern/riscv/sched.c:14-143 | in every reachable state no environment is current on two CPUs, running or dying ones are current somewhere, at most one CPU holds the lock, and each holds it once per kernel entry |
| `Smp.DestroyKeepsIff` | kern/riscv/env.c:502-519 | destroying another environment keeps the invariant iff it is not already dying |
| `Smp.DyingRunsTwice` | kern/riscv/env.c:502-519 | once a CPU has destroyed a dying environment that it would choose next, a legal fork and yield make it current on two CPUs |
| `Smp.DyingExample` | kern/riscv/env.c:502-519 | two CPUs and two environments in which that happens |
| `Smp.SetStatusKeepsIff` | kern/riscv/syscall.c:123-147 | exactly which status changes keep the invariant |
| `Smp.SetStatusMisplaces` | kern/riscv/syscall.c:123-147 | a status of RUNNING or DYING leaves the environment current on no CPU |
| `Smp.WokenReceiverRunsTwice` | kern/riscv/syscall.c:123-147 | once a blocked receiver that two CPUs would choose next is woken, legal steps of both, with one send, make it current on both |
| `Smp.WokenExample` | kern/riscv/syscall.c:123-147 | two CPUs and three environments in which that happens |
| `Smp.BoundedWaitingRun` | kern/riscv/sched.c:14-87 | in every run, while an environment stays runnable a CPU that never lacks a current one runs the scheduler at most NENV-2 times without choosing it |
| `Smp.StarvedWithoutCurrent` | kern/riscv/sched.c:14-47 | from boot, by legal steps, two environments that fork each other and exit keep a runnable one waiting through any number of rounds |
| `Smp.RoundsInv` | kern/riscv/sched.c:14-47 | those rounds pass through states that satisfy the invariant, with the environment waiting |
| `Smp.ManyTurns` | kern/riscv/sched.c:14-47 | in each of those rounds the scheduler runs once |
| `Smp.RecvKeeps` | kern/riscv/syscall.c:454-479 | blocking in receive keeps the invariant |
| `Smp.IpcFrozen` | kern/riscv/syscall.c:374-479 | until its own next receive no step changes a satisfied receiver's IPC fields |
| `Smp.DeliveredOnce` | kern/riscv/syscall.c:374-441 | a receive is completed by one successful send, whose value, sender and permission stay, and no later send succeeds |
| `Smp.SendChangesIff` | kern/riscv/syscall.c:374-441 | a send changes the state iff its target is receiving and any page went through |
| `Messages.Envs.TrySend` | kern/riscv/syscall.c:374-441 | the whole call: each of four errors exactly when it applies, leaving every field, status and translation; success sets fields and status and maps the page, if any, at the recorded address alone |
| `Messages.Envs.Recv` | kern/riscv/syscall.c:454-479 | rejects a misaligned address changing nothing, else blocks the caller and records the address if it is below UTOP |
| `Messages.SendIsStep` | kern/riscv/syscall.c:374-441 | the whole call is one send step of the CPU state machine, failed ones included |
| `Messages.NothingMappedIff` | kern/riscv/syscall.c:444-479 | after a receive that asked for no page, a send maps nothing iff it has no page below UTOP that can be sent and mapped, or the same entry was there |
| `Messages.RefusedPageMapped` | kern/riscv/syscall.c:444-479 | a kernel, two environments and a page for which a refused page is mapped at address 0 |
| `EnvIds.IdsNameTheirSlot` | kern/riscv/env.c:184-242 | every issued id is positive and indexes its slot |
| `EnvIds.IdsRepeatExactly` | kern/riscv/env.c:184-242 | two ids of a slot coincide iff they are a multiple of 2^19-1 allocations apart |
| `EnvIds.SlotsDistinct` | kern/riscv/env.c:184-242 | ids of different slots never coincide |
| `EnvIds.EnvTable.constructor` | kern/riscv/env.c:78-100 | all slots free, in order, with id 0 |
| `EnvIds.EnvTable.EnvAlloc` | kern/riscv/env.c:184-242 | takes a free slot and gives it its next id, or fails changing nothing |
| `EnvIds.EnvTable.EnvFree` | kern/riscv/env.c:412-495 | the slot goes to the head of the free list and keeps its id |
| `EnvIds.EnvTable.Envid2env` | kern/riscv/env.c:36-70 | finds the live environment with that id; fails iff there is none, or permission was asked for and is missing |
| `EnvIds.EnvTable.StaleRejectedUntil` | kern/riscv/env.c:36-70 | a stale id matches its slot iff a multiple of 2^19-1 allocations have passed, and no other live slot ever |
| `PipeRing.StepKeeps` | lib/i386/pipe.c:104-172 | each load, store and increment of reader or writer keeps the ring invariant |
| `PipeRing.PipeFifo` | lib/i386/pipe.c:104-172 | over every interleaving the bytes read are a prefix of those written and the positions stay within 32 of each other |
| `PipeRing.HistoriesGrow` | lib/i386/pipe.c:104-172 | nothing read or written is ever taken back |
| `PipeClose.StepKeeps` | lib/i386/fd.c:174-202 | every step of close, dup, fork and the test keeps each mapped fd page backed by a data page |
| `PipeClose.PipeRefsCover` | lib/i386/pipe.c:75-89 | references to the pipe are at least those to both fd pages together |
| `PipeClose.ClosedIsSound` | lib/i386/pipe.c:75-89 | an answer "closed" means nobody holds the other end |
| `PipeClose.ClosedIff` | lib/i386/pipe.c:75-89 | the answer is "closed" iff every mapping of the pipe page belongs to an fd page of the tester's own end |
| `PipeClose.ClosedForever` | lib/i386/pipe.c:75-89 | an end nobody holds is never held again |
| `PipeClose.WrongOrderMisleads` | lib/i386/pipe.c:185-190 | unmapping the last writer's data page first would make the counts agree with the writer still there |
| `PipeEnd.ZeroAtEndIff` | lib/i386/pipe.c:104-136 | over every interleaving, a read that returns 0 has left nothing unread iff nothing was written since it found the ring empty |
| `PipeEnd.NothingFollows` | lib/i386/pipe.c:104-136 | nothing is written after such a read |
| `PipeEnd.ZeroTooEarly` | lib/i386/pipe.c:104-136 | the run in which a writer writes and closes between the two tests, and the read returns 0 with a byte unread |
| `Malloc.ChunkBounds` | lib/i386/malloc.c:41-112 | every live block lies in the arena, below its page's count word, on mapped pages |
| `Malloc.GrownKeeps` | lib/i386/malloc.c:57-69 | adding a block at the pointer keeps blocks apart and counts exact |
| `Malloc.FreshKeeps` | lib/i386/malloc.c:95-111 | opening a run keeps blocks apart, counts exact and continued pages owned |
| `Malloc.FreshLeaks` | lib/i386/malloc.c:95-111 | the count of the run's last page exceeds its blocks and the open pointer iff the run is for a whole number of pages |
| `Malloc.PageLeaks` | lib/i386/malloc.c:41-139 | one page asked for and freed, with a page leaked |
| `Malloc.RunsOffEnd` | lib/i386/malloc.c:83-93 | a consistent allocator whose search starts outside the arena |
| `Malloc.DroppedKeeps` | lib/i386/malloc.c:70-75 | leaving the open page drops its reference and frees it with the last |
| `Malloc.FreedKeeps` | lib/i386/malloc.c:114-139 | freeing a block unmaps exactly its own pages and drops one count |
| `Malloc.RoundUpCovers` | lib/i386/malloc.c:52 | the rounded size covers the request except for the last three sizes, which wrap to zero |
| `Malloc.NothingLiveNothingHeld` | lib/i386/malloc.c:114-139 | with every block freed only the open page and leaked pages stay mapped |
| `Malloc.Allocator.IsFree` | lib/i386/malloc.c:29-39 | true iff the whole run with its count word is unmapped and inside the arena |
| `Malloc.Allocator.Free` | lib/i386/malloc.c:114-139 | for the address of a block or of the open page, or null: unmaps the continued pages and drops one reference |
| `Malloc.Allocator.FreeBlock` | lib/i386/malloc.c:114-139 | the invariant is kept and exactly that block stops being live |
| `Malloc.Allocator.Search` | lib/i386/malloc.c:83-93 | finds a free run, or there is none anywhere in the arena |
| `Malloc.Allocator.MapRun` | lib/i386/malloc.c:95-108 | maps the run with its marks and count, or undoes everything when memory runs out |
| `Malloc.Allocator.Malloc` | lib/i386/malloc.c:41-112 | a new block apart from all others, or each of four failures iff its condition holds; leaks iff it opens a run of whole pages |
| `Bitmap.BitWritten` | fs/fs.c:40-80 | writing one bit changes the state of that block alone |
| `Bitmap.BlockIsFree` | fs/fs.c:29-37 | true iff the block is on the disk and marked free |
| `Bitmap.FreeBlock` | fs/fs.c:40-47 | exactly that block becomes free |
| `Bitmap.AllocBlock` | fs/fs.c:57-80 | takes the lowest free block, and fails iff there is none |
| `Bitmap.CheckBitmap` | fs/fs.c:86-100 | true iff the boot, super and bitmap blocks are all in use |
| `Blocks.LoadStore` | fs/fs.c:175-179 | a block number stored in an indirect block reads back and disturbs no other |
| `Disk.ClaimKeeps` | fs/fs.c:149-220 | a free block given to an empty place keeps ownership |
| `Disk.ReleaseKeeps` | fs/fs.c:439-452 | a place emptied and its block freed keeps ownership |
| `Disk.PutChanges` | fs/fs.c:149-220 | a store through a slot changes what that slot names and no file's data |
| `Disk.NewIndChanges` | fs/fs.c:165-174 | a cleared indirect block gives the file empty slots and changes nothing else |
| `FileSystem.ErrorBreaksOwn` | fs/fs.c:211-216 | an error code left in a slot breaks ownership |
| `FileSystem.ResizedTail` | fs/fs.c:463-490 | with the slots past every end empty, a resize frees exactly what the file held past its new size and keeps them empty |
| `FileSystem.ResizeLosesNothingIff` | fs/fs.c:463-490 | every block a file held is freed or still held after a resize iff the indirect block stays or named nothing past the old end |
| `FileSystem.Server.BlockWalk` | fs/fs.c:149-188 | its four outcomes exactly, and on success the slot is reachable |
| `FileSystem.Server.GetBlock` | fs/fs.c:198-220 | fetches the block keeping every other place and byte; fails for space, and loses ownership, iff the disk lacks the blocks needed |
| `FileSystem.Server.FreeFileBlock` | fs/fs.c:439-452 | empties exactly that slot and frees exactly its block |
| `FileSystem.Server.TruncateBlocks` | fs/fs.c:463-479 | empties exactly the slots between the new size and the old, and the indirect block when none of it can be needed |
| `FileSystem.Server.SetSize` | fs/fs.c:482-490 | sets the size and empties exactly the dropped slots, keeping every other place and byte |
| `Transfer.PokedCell` | fs/fs.c:413-435 | bytes copied into a data block change those bytes of that file block alone |
| `Transfer.FetchTailIff` | fs/fs.c:198-220 | a fetch keeps slots past the end empty iff the block is within the file |
| `Transfer.ReadAgrees` | fs/fs.c:384-406 | what is read is what the file has, and had, at each position |
| `Transfer.WriteDone` | fs/fs.c:413-435 | a write sets exactly its bytes; every other byte of every file stays; sizes and tails are right |
| `FileIo.Read` | fs/fs.c:384-406 | returns min(count, size - offset) bytes matching the file across block and indirect boundaries and changes no byte; fails for space iff the holes need more blocks than are free; refused iff past the largest block index |
| `FileIo.Write` | fs/fs.c:413-435 | stores exactly the buffer, keeps every other byte of every file; fails for space iff it needs more blocks than are free; refused iff past the largest block index, with the bytes before that stored |
| `FileIo.WriteWriteRead` | fs/fs.c:384-435 | two writes to different files and a read: succeed iff both ranges are within the largest index and there are blocks for both, and the read returns the first buffer |
| `FileIo.RunOps` | fs/fs.c:149-490 | any run of writes, reads, resizes and fetches goes through states each related to the next by what the operation does; all are owned up to the first allocation that fails, which is the last operation performed |
| `Transfer.RunTailIff` | fs/fs.c:149-490 | over any run, slots past every end stay empty iff each fetch that succeeded was within its file |
| `Transfer.RunKeepsByte` | fs/fs.c:149-490 | over any run, a byte stays what it is until an operation writes it or cuts it off |
| `Transfer.ReadsLastWrite` | fs/fs.c:384-435 | over any run, a read returns for each byte what the last write to it stored |
| `Transfer.StoredRead` | fs/fs.c:384-406 | a read of stored bytes succeeds, allocates nothing and returns them |
| `Format.NameNext` | fs/fsformat.c:134-148 | one more slot names the next block of the run, keeping ownership |
| `Format.Formatter.FinishFile` | fs/fsformat.c:134-148 | the record names start+i for every block across the direct boundary; fails iff there is no room for the indirect block |
| `Format.Formatter.WriteFile` | fs/fsformat.c:180-209 | lays out one more file with its bytes, keeping all others; fails iff it is too large, one too many or does not fit |
| `Format.Formatter.FinishDir` | fs/fsformat.c:169-178 | the root directory holds the entries in allocated blocks |
| `Format.Formatter.FinishEmptyDir` | fs/fsformat.c:169-178 | with no entries the root names a block still free |
| `Format.Formatter.FinishDisk` | fs/fsformat.c:122-132 | the bitmap marks in use exactly the blocks laid out |
| `Format.Format` | fs/fsformat.c:91-209 | succeeds iff the files fit; the image satisfies ownership and the bitmap check, with every file in it, iff the list is not empty |
| `Format.ImageRead` | fs/fsformat.c:180-209 | a read of a whole file of any image succeeds and returns the bytes the formatter was given |
| `Format.FormatThenRead` | fs/fsformat.c:180-209 | the server that mounts the image fsformat made reads back every byte |
| `Flash.ChunkAccepted` | fs/cfi_flash.c:140-171 | a chunk that stops at a flash page boundary stays in one page and one erase block |
| `Flash.WriteBuf` | fs/cfi_flash.c:140-171 | programs exactly the buffer's words, in chunks that tile it and that the device accepts |
| `Flash.Write` | fs/cfi_flash.c:173-195 | refuses, changing nothing, iff the range passes the capacity |
| `Flash.Read` | fs/cfi_flash.c:197-220 | copies exactly the words asked for, or refuses past the capacity |
| `Flash.WriteSectors` | fs/cfi_flash.c:256-262 | writes exactly the block's words, or nothing at all past the last block |
| `Flash.ReadSectors` | fs/cfi_flash.c:249-255 | reads the block, or leaves the page as it was past the last block |
| `BlockCache.AddrRoundTrip` | fs/bc.c:5-11 | any address in a block's page leads back to the block within 32 bits |
| `BlockCache.FaultKeepsView` | fs/bc.c:30-75 | faulting a block in changes no block as the server sees it |
| `BlockCache.FlushKeepsView` | fs/bc.c:84-117 | flushing changes no block as the server sees it |
| `BlockCache.FlushCoherentIff` | fs/bc.c:84-117 | clean pages still equal flash iff the block is on the flash, was clean or is blank |
| `BlockCache.EvictKeepsViewIff` | fs/bc.c:135-140 | unmapping a page loses nothing iff it is clean or equal to flash |
| `BlockCache.SyncReachesFlashIff` | fs/fs.c:514-521 | after fs_sync a block is on flash as seen iff it fits the flash, was not written or is blank |
| `BlockCache.SyncWritesOnly` | fs/fs.c:514-521 | fs_sync writes no flash word outside the dirty blocks |
| `BlockCache.SyncOnFittingDisk` | fs/fs.c:514-521 | on a disk that fits, fs_sync puts every block on flash and leaves clean pages equal to it |
| `BlockCache.Cache.PageFault` | fs/bc.c:30-75 | maps the flash block clean, or refuses a bad address or block |
| `BlockCache.Cache.FlushBlock` | fs/bc.c:84-117 | writes back a dirty page from any address in it and marks it clean |
| `BlockCache.Cache.Sync` | fs/fs.c:514-521 | the loop is the specified flush of blocks 1 to nblocks-1 |
| `BlockCache.Cache.Run` | fs/bc.c:30-117 | for any run of loads, stores, flushes, unmaps and syncs on a disk that fits, every load answers as plain memory would |
| `Persist.ShowsOne` | fs/fs.c:175-179 | the words of a block determine its bytes |
| `Persist.Restarted` | fs/fs.c:514-521 | a cache that starts empty after fs_sync gives the blocks the first one held |
| `Records.RecordRead` | inc/i386/fs.h:29-42 | a File record stored in a block reads back |
| `Records.DirRecord` | inc/i386/fs.h:29-45 | each record of a directory block reads back, and the slots after the last are not in use |
| `Records.SuperRecord` | inc/i386/fs.h:52-60 | the root's record and the number of blocks read back from the super block |
| `Records.BitmapRead` | fs/fs.c:29-47 | a bitmap word reads back from the bitmap block |
| `Persist.Layout` | fs/fs.c:108-131 | the image has super block, bitmap and directory in their places and every other block as it is |
| `Persist.Decode` | fs/fs.c:108-131 | starting from the image alone gives back all records and the free blocks |
| `Persist.Restart` | fs/fs.c:514-521 | a new server that has only the flash has the records, free blocks and file blocks of the first |
| `Persist.WriteSyncRestartRead` | fs/fs.c:384-521 | a write, fs_sync and a restart from the flash: the bytes written are read back, iff the write fits |
| `Stabs.Search` | kern/i386/kdebug.c:59-103 | the loop ends for every input and follows the specified cursor steps |
| `Stabs.StabBinsearch` | kern/i386/kdebug.c:59-103 | returns the last match at or below the address and the end of its interval, iff no stab one past the address is in range at the first hit |
| `Stabs.Outcome` | kern/i386/kdebug.c:59-103 | what every search ends with, found or not |
| `Stabs.NoNeighbourNoSuccessor` | kern/i386/kdebug.c:59-103 | the search is right whenever no stab has the value one past the address |
| `Stabs.AdjacentAddressesMislead` | kern/i386/kdebug.c:59-103 | stabs at 5 and 6 are in the failing family for 5 |
| `Stabs.SearchMisled` | kern/i386/kdebug.c:59-103 | there the search returns a stab that does not contain the address |

## Left out

- Page tables: TLB, ASID and cache maintenance; kernel mappings; `user_mem_check`; the i386 copies of the same files.
- Kernel.Kernel.Run: addresses stay in the top-level slots environments own; a run stops before a call that would take a count past 65535 and before sys_page_alloc finds no free page.
- Kernel.Kernel.SysPageMap: takes perm within PTE_SYSCALL, owned slots, and no count past 65535; what the missing check allows is in `WidePerm`.
- Kernel.Kernel.SendPage: owned slots, and no count past 65535.
- Kernel.Kernel.SysPageAlloc: needs a free page once its arguments are accepted, since the source does not test for one; that the new page is cleared is in `Kernel.Kernel.PageAlloc`.
- Slot 480 of the file server's directory, copied from the kernel's (kern/riscv/env.c:404-406), is treated as owned and empty.
- Kernel.Kernel.PageInsert: owned slots, and no count past 65535; what happens there is in `Pmap.InsertExactIffNoWrap`.
- CowFork.WriteRefines: accesses to the temporary page itself are outside the claim.
- Smp.StepKeeps: runs take only the destroys and status changes that `Smp.DestroyKeepsIff` and `Smp.SetStatusKeepsIff` show to be harmless.
- Smp: interrupts and the contents of trap frames; a send carries how its page part went, which `Messages.SendIsStep` ties to the call.
- Messages.Envs.TrySend: the ids are resolved to slots (`EnvIds`); addresses in owned slots, and no count past 65535.
- PipeClose: one CPU, and fork as one step.
- PipeEnd: one read call, of one byte at a time.
- Pipes: positions stay within `off_t`.
- Malloc.Allocator.Free: addresses in pages malloc did not map, on which the source reads unmapped memory, are outside the claim.
- Malloc.Allocator.Malloc: once the pointer is at or past the last page the search walks out of the arena; the model reports that outcome instead of following it.
- Bitmap: a bitmap word is modelled as its 32 bits, so `1 << (b % 32)` is an index.
- File server: File records are kept beside the blocks, not inside directory blocks, so directory operations (`walk_path`, `dir_alloc_file`, `file_create`, `file_remove`) are not modelled.
- File server: sizes and offsets are unbounded naturals; negative sizes and `off_t` overflow are not modelled.
- FileIo.Read: says nothing about bytes in holes, which new blocks do not clear.
- Persist.WriteSyncRestartRead: a root directory within its direct blocks, which holds every other record; names and types are one word, in use or not.
- `file_flush` and the flushes inside `alloc_block` and `file_set_size`: cache effects only, covered by the block cache.
- BlockCache.Cache.PageFault: does not model the check, after reading, that the block is not marked free.
- Flash: command states, status polling and erase; programming a word is an overwrite.
- Format.Formatter.WriteFile: a directory entry starts zeroed; fsformat's come from malloc uncleared, so slots past a file's end hold what was there.
- Format.Formatter.FinishDir: directory entries are bytes supplied by the caller; names and types are not encoded.
- Crash consistency of the on-disk state.
- Devices (e1000, PCI, LAPIC, IDE, console), the network server, the monitor, printf, exec and spawn.
