# xv6-riscv, modelled in Dafny

This project models the parts of xv6-riscv (with copy-on-write fork) where correctness is
hardest to see in the C text, and proves what they promise: a crash-safe log over a pinned block
cache, copy-on-write memory with reference counts, three-level page tables, the file layer, the
process table with its locks, the disk queue, the user-level allocator, the shell's parser and
grep's matcher.

Two forms are used. Code that changes things in place is a class with the C structure's fields and
methods with the C loops, proved against a specification over values. Code whose difficulty is in
its interleavings (log, cache, processes) is a state machine with one step per lock operation or
critical section, and the theorems range over all runs from boot. Where the code does not do what
one would expect of it, there is a run that shows it and the exact condition under which it does:
`CowLeak.LastSharerLoses`, `CowMemory.CowMemory.Freerange`, `LogPanic.PanicReached`.

| file | source | what it holds |
|---|---|---|
| LogLayout, RedoLog | kernel/log.c | the log's disk layout; commit and recovery block by block |
| LogProtocol, LogRefinement, LogTheorems, LogPanic | kernel/log.c, kernel/bio.c | operations, cache, group commit, crashes as a state machine; its refinement of an atomic store; theorems about runs; a run that ends in log_write's panic |
| BufferRing | kernel/bio.c | the LRU ring of buffers, relinked in place |
| CowModel, CowMemory, CowLeak | kernel/kalloc.c, kernel/vm.c | reference counts and copy-on-write over any number of address spaces; where every page is after a run; a run that loses one |
| PageTree, PageTable | kernel/vm.c | the Sv39 tree and its flat map |
| FileModel, FileSystem, InodeTable, FileWriteBound | kernel/fs.c, kernel/file.c | bitmap, block maps, files as byte sequences, active inodes, what one write logs |
| FileCommit, FileOverlap | kernel/file.c, kernel/log.c | file operations over the log, one after another and overlapping: what a crash leaves of them |
| ProcModel, ProcLocks, ProcFamily, ProcWakeups, ProcTheorems | kernel/proc.c | scheduler, sleep and wakeup, fork, exit, wait |
| Virtqueue | kernel/virtio_disk.c | descriptor chains, rings and a nondeterministic device |
| FreeList, Umalloc | user/umalloc.c | the circular free list and its allocator |
| ShellGrammar, ShellText, Shell | user/sh.c | the command grammar, its text, the cursor parser |
| Grep | user/grep.c | the pattern matcher |
| Params, Basics, Totals | kernel/param.h | shared constants, an option type, lists without repeats, sums |

## How the source is read

- A disk write is atomic per block, and power can fail between any two of them, also during recovery.
- `panic` is a stop. A method whose C body can panic either demands what rules it out or returns a
  failure; the theorems below say which panics cannot be reached.
- The steps of `LogProtocol` follow kernel/log.c:127-236 and kernel/bio.c:58-151 lock section by lock
  section: `BeginOp`, `EndOp`, `LogWrite`, `WriteLog`, `CommitHead`, `Install`, `ClearHead` and the
  recovery steps for the log, `BgetHit`, `BgetRecycle`, `Acquire`, `Load`, `Brelse` for the cache.
- The steps of `ProcModel` follow kernel/proc.c: `SchedNext` (424-463), `YieldNext` (472-501 and
  forkret), `SleepNext` (543-571), `WakeNext` (574-588), `ExitNext` (310-366), `WaitNext` (370-415), `VisitNext`
  (wakeup, reparent, kwait and kkill at one process), `ForkNext` (109-150, 259-306). A lock belongs to
  a CPU. A section that takes and releases one `p->lock` is one step; sleep, exit and the scheduler's
  hand-over are split at every lock operation. Locks passed to sleep other than wait_lock are numbered
  from 1, and code that uses them is any sequence of lock, sleep, wakeup and unlock.
- An interrupt handler (`IrqNext`) is any sequence of wakeups under one condition lock other than
  wait_lock, on a CPU that is in scheduler() without a process or in code that holds no lock, as
  clockintr (kernel/trap.c:203-217) and virtio_disk_intr (kernel/virtio_disk.c:294-327) are.
- Copy-on-write runs start from the state boot is meant to reach: all pages free with count 0. As
  written, freerange (kernel/kalloc.c:93-106) gives each page count 0 and then calls kfree, whose
  krefdec panics at 0; `Freerange` takes that first count as a parameter and says when boot panics.
- The log takes as given that an operation calls log_write on every buffer it changes before it
  releases it, and adds at most MAXOPBLOCKS blocks. `FileSystem` proves both of filewrite:
  `Journals`, which `WriteOp` ensures, says that every block changed is logged and bounds how many are.
- The two `else` arms of kernel/vm.c:348-363 are identical and are read as one.
- `fail` and similar parameters stand for user copies that fail, `missing` for the page-table pages
  walk has to allocate for each page of a range, `gap` and `fails` for what sbrk does; any value is
  allowed.
- The disk device takes published requests in order and completes any it has in any order, as sections
  2.6 and 5.2 of OASIS VIRTIO 1.1 allow; its two moves are `DeviceTake` and `DeviceComplete`.
- A file system block is read either as 1024 bytes or as 256 words, never as both: ownership says
  which. Bitmap bytes are a sequence of bits.

## Model

| member | source | states |
|---|---|---|
| LogLayout.HeaderWriteCommits | kernel/log.c:103-115 | the single header write makes all logged contents the recovered image at once |
| LogLayout.LogWriteInvisible | kernel/log.c:179-192 | under an empty header no write to the log area changes what recovery would give |
| LogLayout.InstallInvisible | kernel/log.c:66-84 | copying any logged block home changes nothing recovery could see |
| LogLayout.InstalledIsHome | kernel/log.c:66-84 | once all listed blocks are copied the home blocks are the recovered image |
| LogLayout.ClearInvisible | kernel/log.c:117-124 | clearing the header then changes nothing recovery could see |
| RedoLog.Log.Record | kernel/log.c:215-236 | log_write's list: a block is appended once, absorbed after, and it panics exactly on a full log |
| RedoLog.Log.WriteLog | kernel/log.c:179-192 | the cached contents reach the log area; a crash at any of these writes recovers the old image |
| RedoLog.Log.WriteHead | kernel/log.c:103-115 | one write puts the in-memory list into the on-disk header |
| RedoLog.Log.InstallTrans | kernel/log.c:66-84 | every listed block reaches its home; a crash at any of these writes recovers the same image |
| RedoLog.Log.Commit | kernel/log.c:194-204 | after any prefix of its 2n+2 writes recovery gives the old image before the header write and the whole new one from it on |
| RedoLog.Log.ReadHead | kernel/log.c:87-98 | the in-memory list becomes the one on disk |
| RedoLog.Log.RecoverFromLog | kernel/log.c:117-124 | a crash at any write of recovery recovers to the same image; at the end it is in place and the log clear |
| LogRefinement.StepRefines | kernel/log.c:127-236 | every step keeps the invariant and is the atomic-store step its event names |
| LogRefinement.RunInv | kernel/log.c:127-236 | the invariant of cache, pins, reservations and log area holds in every state of every run |
| LogRefinement.UnreferencedIsClean | kernel/bio.c:58-89 | a buffer bget may recycle holds what is on disk: logged blocks are pinned |
| LogTheorems.RunRefines | kernel/log.c:127-236 | every run, with any interleaving and any crashes, is a run of a store with atomic transactions |
| LogTheorems.RecoveryRestoresCommit | kernel/log.c:66-124 | a finished recovery leaves the header clear and the home blocks exactly as at the last commit, however many crashes and partial recoveries came between |
| LogTheorems.RecoveryWithoutCommit | kernel/log.c:66-124 | with no commit, recovery gives back the image the run started from |
| LogTheorems.CommitsSplitNoOperation | kernel/log.c:127-176 | no commit falls between the begin and the end of an operation: its writes land in one transaction |
| LogTheorems.ReadsSeeLastWrite | kernel/bio.c:58-103 | bread returns the last contents written, across any recycling of buffers |
| LogTheorems.WriteAhead | kernel/log.c:179-204 | a home block on disk changes only when the on-disk header lists it, and then to the logged copy |
| LogTheorems.FinishedIsDurable | kernel/log.c:147-176 | when the committer is done, what the file system shows is on disk |
| LogTheorems.OneCommitter | kernel/log.c:147-176 | while the log commits, outstanding is 0 and nobody is inside an operation, so there is no second committer |
| LogTheorems.PanicMeansReservationsSpent | kernel/log.c:215-236 | log_write panics inside an operation exactly on a full log, and then every operation in progress has used its whole reservation |
| LogTheorems.ReservationsFit | kernel/log.c:127-176 | listed blocks and unused reservations together never exceed LOGBLOCKS, so an operation with reservation left never meets the panic |
| LogPanic.PanicReached | kernel/log.c:215-236 | a run that ends in the panic: no operation is over its reservation, and the block is already in the log |
| BufferRing.UnlinkRing | kernel/bio.c:116-137 | the two stores take a buffer out of the doubly linked ring and leave the rest linked both ways |
| BufferRing.PushFrontRing | kernel/bio.c:116-137 | the four stores put a buffer first in the ring |
| BufferRing.MoveToFront | kernel/bio.c:116-137 | moving the buffer just released to the front keeps the ring in release order |
| BufferRing.BufferCache.constructor | kernel/bio.c:36-53 | binit links all NBUF buffers into the ring exactly once |
| BufferRing.BufferCache.FindCached | kernel/bio.c:58-73 | the first loop finds the block if and only if it is cached |
| BufferRing.BufferCache.FindVictim | kernel/bio.c:74-88 | the second loop finds the unreferenced buffer released longest ago, or none is unreferenced |
| BufferRing.BufferCache.Bget | kernel/bio.c:58-89 | another reference to a cached block, else the buffer released longest ago taken over, else the panic; no block is cached twice |
| BufferRing.BufferCache.Brelse | kernel/bio.c:116-137 | one reference less; the last one out moves the buffer to the front, and nothing else changes |
| BufferRing.BufferCache.Bpin | kernel/bio.c:139-144 | one more reference, ring unchanged |
| BufferRing.BufferCache.Bunpin | kernel/bio.c:146-151 | one reference less, the buffer keeps its place in the ring |
| CowModel.MapNewInv | kernel/vm.c:145-174 | mapping a page just allocated keeps counts exact |
| CowModel.UnmapInv | kernel/vm.c:193-221 | unmapping keeps every count equal to the number of mappings, and frees the page exactly at 0 |
| CowModel.ShareInv | kernel/vm.c:324-355 | a second mapping with one more count keeps counts exact and writable mappings exclusive |
| CowModel.PrivatiseInv | kernel/vm.c:579-593 | moving one mapping to a private copy keeps counts exact |
| CowModel.PrivatiseOk | kernel/vm.c:559-596 | and no address space sees a difference |
| CowModel.StoreOk | kernel/vm.c:559-596 | a store through a writable entry changes one page of one address space: no other space maps it |
| CowModel.SoleMapping | kernel/vm.c:579-593 | a writable user entry is its page's only mapping |
| CowModel.FaultMoves | kernel/vm.c:559-596 | a write fault gives exactly its entry a page of its own, and the pages that leave both the counts and the free list are those it was the only one to map |
| CowModel.AbandonedOne | kernel/vm.c:593 | for one fault that is the old page if its count was 1, and no page otherwise |
| CowModel.MovedTwice | kernel/vm.c:559-596 | two sets of faults in a row lose what the union of them loses |
| CowMemory.CowMemory.Kalloc | kernel/kalloc.c:144-176 | the first free page with count 1, or 0 when none is free |
| CowMemory.CowMemory.Kfree | kernel/kalloc.c:112-138 | the count drops, and the page joins the free list exactly when it reaches 0 |
| CowMemory.CowMemory.Uvmunmap | kernel/vm.c:193-221 | exactly the range disappears from one space's view; counts stay exact |
| CowMemory.CowMemory.Uvmcopy | kernel/vm.c:305-370 | the child sees what it would see had every user page been copied, while both sides share each page read-only; on failure nobody sees a change; it fails exactly when the page tables do not fit; no page is lost |
| CowMemory.CowMemory.Cowfault | kernel/vm.c:559-596 | no view changes; the entry becomes writable exactly when it was copy-on-write and a page was free; the old page is lost, uncounted and off the free list, exactly when its count was 1, and no other page is |
| CowMemory.CowMemory.Store | kernel/vm.c:559-596 | a user store changes its own page's bytes and no other space's; it loses a page exactly as cowfault does |
| CowMemory.CowMemory.Vmfault | kernel/vm.c:520-541 | a page of zeroes appears at the faulting address, or nothing changes |
| CowMemory.CowMemory.Copyout | kernel/vm.c:388-443 | succeeds exactly when every page of the range may be written or supplied and memory suffices; otherwise it has written a prefix that ends with a page; no other page of any space has come, gone or changed; the pages lost are those mapped only by copy-on-write entries it wrote through |
| CowMemory.CowMemory.Copyin | kernel/vm.c:448-471 | succeeds exactly when every page of the range may be read or supplied and memory suffices, and returns the bytes the space sees there; no byte changes, no page outside the range comes or goes, none is lost |
| CowMemory.CowMemory.Execute | kernel/vm.c:305-596 | over every list of forks, faults, stores, copyouts and unmaps, on any number of spaces and with any failures, the views move as if fork had copied every page, counts stay exact, and a page is lost only by a write fault through its last mapping |
| CowMemory.CopyOutDetermined | kernel/vm.c:388-443 | the reference step of copyout fixes every page of every space |
| CowMemory.LostInRun | kernel/vm.c:559-596 | the pages lost at the end of a run are exactly those some write fault in it abandoned |
| CowMemory.PageAccount | kernel/kalloc.c:112-176 | after any run every page is free, counted, or lost to such a fault, and never two of these |
| CowLeak.LastSharerLoses | kernel/vm.c:559-596 | a run from boot, of a fork and one write fault on each side, that loses a page |
| CowMemory.CowMemory.Freerange | kernel/kalloc.c:93-106 | boot panics if and only if the range holds a whole page; with a first count of 1 it would free every whole page |
| PageTree.HangSameMap | kernel/vm.c:97-115 | hanging a new empty table changes no translation |
| PageTree.SetEntryStored | kernel/vm.c:145-174 | storing through walk's entry changes that translation and no other |
| PageTree.HangWf | kernel/vm.c:97-115 | a new table leaves a tree in which each table hangs from exactly one entry |
| PageTree.LeafTranslates | kernel/riscv.h:366-376 | every level-0 entry is the translation of one page number below MAXVA |
| PageTree.BelowStep | kernel/vm.c:271-287 | different entries of a table lead to disjoint sets of tables |
| PageTree.GrownUndone | kernel/vm.c:225-267 | unmapping what uvmalloc added restores the map and yields the pages it added |
| PageTable.PageTable.constructor | kernel/vm.c:178-187 | uvmcreate's tree translates nothing |
| PageTable.PageTable.Walk | kernel/vm.c:97-115 | walk with alloc finds or makes the leaf table, no translation changes, pages move only from free list to tables, and it fails only without memory |
| PageTable.PageTable.Find | kernel/vm.c:97-115 | walk without alloc finds the entry the flat map has |
| PageTable.PageTable.Mappages | kernel/vm.c:145-174 | exactly the range is added on success, a prefix of it on failure, which needs an empty free list |
| PageTable.PageTable.Uvmunmap | kernel/vm.c:193-221 | exactly the range is removed, and with do_free exactly its pages go to kfree, in order, otherwise none |
| PageTable.PageTable.Uvmdealloc | kernel/vm.c:255-267 | exactly the pages from newsz up to oldsz go |
| PageTable.PageTable.Uvmalloc | kernel/vm.c:225-249 | the new pages are mapped, each to a page of its own that was free; a failure leaves every translation as before, gives back every page, and needs at most one free page |
| PageTable.PageTable.Freewalk | kernel/vm.c:271-287 | the tables at and below one table are freed, each exactly once, and no others |
| PageTable.PageTable.Uvmfree | kernel/vm.c:291-297 | the pages below sz go to kfree and every table page is freed exactly once |
| FileModel.SlotOwns | kernel/fs.c:405-444 | a block address names a data block whose bit is set and that no other slot names |
| FileModel.MarkOwned | kernel/fs.c:66-89 | balloc's bit and zeroing keep every other owner |
| FileModel.AttachOwned | kernel/fs.c:405-444 | storing a new block in an empty slot keeps ownership exact |
| FileModel.FreeOwned | kernel/fs.c:92-106 | a block given up by its slot has its bit set, so bfree cannot panic, and freeing it keeps ownership exact |
| FileModel.OrphanEntries | kernel/fs.c:448-476 | dropping the indirect block makes it and its entries, all distinct, nobody's |
| FileModel.GrewBytes | kernel/fs.c:405-444 | bmap moves no block that was mapped and changes none of its bytes |
| FileModel.StoreBytes | kernel/fs.c:528-562 | storing into a file's block changes those bytes of that file and no other file's |
| FileModel.WroteContent | kernel/fs.c:528-562 | after writei the file is the old content overwritten from off on, and other files are unchanged |
| FileModel.Piece | kernel/fs.c:494-519 | bytes taken from a block are the file's bytes there |
| FileSystem.FileSys.Balloc | kernel/fs.c:66-89 | the first free block, marked, zeroed and logged, or 0 exactly when every bit is set |
| FileSystem.FileSys.Bmap | kernel/fs.c:405-444 | the mapped block, allocating at most the data and the indirect block, and nothing if it is there; 0 only on a full disk; ownership and hole-freedom kept; every change logged |
| FileSystem.FileSys.Itrunc | kernel/fs.c:448-476 | exactly the file's blocks become free, the inode is empty in memory and on disk, every change logged |
| FileSystem.FileSys.Readi | kernel/fs.c:494-519 | exactly the slice clipped to the size, with nothing allocated, logged or changed |
| FileSystem.FileSys.Writei | kernel/fs.c:528-562 | the file is overwritten by exactly the bytes written and other files are unchanged; it stops only at a failed copy or at a missing block of a full disk; every changed block is logged, and how many are is bounded |
| FileSystem.FileSys.WriteOp | kernel/file.c:149-165 | one chunk logs at most MAXOPBLOCKS distinct blocks, for any offset, file and bitmap, and every block it changed; the file has taken the bytes written and every other file is unchanged |
| FileSystem.FileSys.Filewrite | kernel/file.c:134-179 | the bytes written are where the offset says and nothing else in any file has changed, wherever a copy fails; every transaction logs what it changes and fits its reservation, and writes the next piece; the result is n exactly when all bytes were written |
| FileSystem.ChunkSpan | kernel/file.c:149-152 | a chunk lies in at most four blocks, three if aligned |
| FileSystem.OpFits | kernel/file.c:149-165 | data, bitmap, indirect and inode blocks of a chunk add up to at most MAXOPBLOCKS |
| FileSystem.FirstBlockMapped | kernel/fs.c:528-562 | an unaligned write starts in a block the file already has |
| FileWriteBound.TightWrite | kernel/file.c:149-165 | a disk and a write whose transaction is exactly MAXOPBLOCKS blocks |
| FileWriteBound.AllSpareUsed | kernel/fs.c:405-444 | in that write all four spare blocks, one per bitmap block, are taken |
| FileCommit.DiskIsLocal | kernel/fs.h:27-51 | the disk of fs.c, with bitmap, inodes and data where BBLOCK and IBLOCK say and an indirect block read as words, depends block by block on what lies in each block |
| FileCommit.RoleKept | kernel/fs.c:405-444 | a block an operation has not logged is an indirect block after it exactly if it was one before |
| FileCommit.ChangesAreLogged | kernel/fs.c:528-562 | a block of the disk that an operation changes is among the blocks it logs |
| FileCommit.OperationActs | kernel/file.c:160-165 | an operation that writes the blocks it logs, and no others, turns the old file system into the new one, whole |
| FileCommit.SerialTracks | kernel/file.c:149-172 | so in a run of operations one after another the blocks show the file system of the operations that have ended |
| FileCommit.SerialFiles | kernel/file.c:149-172 | in every state of such a run each file is the first one with exactly the writes of the operations that have ended |
| FileCommit.SerialWritesSurvive | kernel/log.c:66-124 | after any crashes and a finished recovery every file has exactly the writes of the operations that had ended at the last commit |
| FileCommit.ReplayPieces | kernel/file.c:149-172 | consecutive pieces of a write add up to one write of their bytes |
| FileCommit.FilewriteSurvives | kernel/file.c:149-172 | a filewrite cut off by a crash: after recovery the file has exactly the chunks whose operation had ended at the last commit, and every other file is as it was |
| FileOverlap.OverlappingWritesSurvive | kernel/log.c:127-204 | the same for operations that overlap under group commit, each under the lock of its inode |
| FileOverlap.OnlyOwnBlocks | kernel/fs.c:405-444 | writing bits, one's own inode and blocks of no other inode leaves every other file as it was, also in the middle of an operation |
| InodeTable.Itable.Iget | kernel/fs.c:247-278 | one more reference to the inode's entry if it has one, else the first empty entry taken for it, invalid; no inode is in the table twice |
| InodeTable.Itable.Ilock | kernel/fs.c:293-318 | whatever the entry held, its copy is then the inode on disk, and valid |
| InodeTable.Itable.Iput | kernel/fs.c:337-363 | one reference less; the last one to an unlinked inode frees exactly its blocks and the inode |
| InodeTable.Itable.Ireclaim | kernel/fs.c:373-393 | afterwards no inode has a type and no links, exactly the blocks of those that had are freed, and every other file is as it was |
| ProcLocks.NextCore | kernel/proc.c:424-588 | every step keeps locks with the CPU whose code is inside the section that holds them |
| ProcFamily.NextFamily | kernel/proc.c:259-415 | every step keeps parents alive and gives every process that has lived one |
| ProcWakeups.NextWakeups | kernel/proc.c:543-588 | every step keeps: a wakeup in progress has left nobody asleep among those it has visited |
| ProcWakeups.Exclusive | kernel/proc.c:543-588 | a condition lock has one holder |
| ProcWakeups.NextIrqWakeups | kernel/trap.c:203-217 | every step keeps the same of a wakeup made by an interrupt handler |
| ProcTheorems.RunInv | kernel/proc.c:109-612 | the invariant holds in every state of every run |
| ProcTheorems.OneCpuEach | kernel/proc.c:424-463 | a RUNNING process is the current one of exactly one CPU, and no process of two |
| ProcTheorems.ContextUnderLock | kernel/proc.c:472-490 | every switch saves or loads a context with that process's lock held and no other; sched's lock and state panics cannot happen |
| ProcTheorems.NoLostWakeup | kernel/proc.c:543-588 | when wakeup(chan) ends under the condition lock, no process is left that released that lock inside sleep(chan) and was not woken |
| ProcTheorems.NoLostInterruptWakeup | kernel/virtio_disk.c:294-327 | so it is when an interrupt handler ends wakeup(chan), on a CPU with or without a process |
| ProcTheorems.NoMissedExit | kernel/proc.c:326-415 | while wait_lock is free no process sleeps in kwait with a ZOMBIE child |
| ProcTheorems.NoDeadParent | kernel/proc.c:297-321 | no ZOMBIE, UNUSED or half-made process is anyone's parent; only init has no parent |
| ProcTheorems.ReapedOnce | kernel/proc.c:370-415 | each exit is reaped at most once and until then is a zombie |
| ProcTheorems.ReapIsOfOwnChild | kernel/proc.c:370-415 | kwait frees only a child of its caller that has left every CPU for good |
| Virtqueue.RingPush | kernel/virtio_disk.c:271-277 | a new ring entry overwrites none that is still unconsumed |
| Virtqueue.WrapSlot | kernel/virtio_disk.c:271-277 | a 16-bit index finds the right slot after it wraps |
| Virtqueue.ChainsApart | kernel/virtio_disk.c:201-213 | no descriptor is in two chains |
| Virtqueue.NewChain | kernel/virtio_disk.c:223-269 | three free descriptors become a chain disjoint from all others |
| Virtqueue.EndChain | kernel/virtio_disk.c:185-197 | freeing a chain leaves all others intact |
| Virtqueue.Disk.AllocDesc | kernel/virtio_disk.c:156-166 | the first free descriptor, or -1 when none is free |
| Virtqueue.Disk.Alloc3 | kernel/virtio_disk.c:201-213 | three distinct free descriptors, or none at all when no three are free |
| Virtqueue.Disk.FreeChain | kernel/virtio_disk.c:185-197 | exactly the chain's three descriptors are freed, following next |
| Virtqueue.Disk.Submit | kernel/virtio_disk.c:215-281 | one more disjoint three-descriptor request for the buffer, queued last and marked busy; refused only when no three descriptors are free |
| Virtqueue.Disk.Intr | kernel/virtio_disk.c:294-327 | every completion is handled, and the busy flag of exactly the submitted buffers is cleared |
| Virtqueue.Disk.Finish | kernel/virtio_disk.c:283-291 | a request whose flag is clear gives back exactly its own three descriptors |
| FreeList.FreeTidy | user/umalloc.c:24-44 | inserting and merging keeps the list circular, ordered and fully coalesced, frees exactly the block's units, and touches no other live block |
| FreeList.MergePartition | user/umalloc.c:24-44 | merging neighbours keeps free and live blocks a partition of the units obtained |
| FreeList.TakeWhole | user/umalloc.c:63-90 | taking a block out of the list keeps it tidy and makes exactly its units live |
| FreeList.TakeTail | user/umalloc.c:63-90 | so does taking the tail of a larger block |
| FreeList.ExtendTidy | user/umalloc.c:46-61 | units from sbrk join as a block of their own |
| Umalloc.Heap.Search | user/umalloc.c:24-32 | the search of free ends, at the one place the block fits |
| Umalloc.Heap.Free | user/umalloc.c:24-44 | the heap stays valid, exactly the block's units become free inside one free block, and every other live block is untouched |
| Umalloc.Heap.Morecore | user/umalloc.c:46-61 | exactly the units obtained become free, or nothing changes |
| Umalloc.Heap.Malloc | user/umalloc.c:63-90 | a live block of exactly the units asked for, all free before or just obtained; morecore is called at most once, and only when no free block is large enough; 0 only if sbrk fails |
| ShellGrammar.PrintParses | user/sh.c:333-452 | every command tree with fewer than MAXARGS words per command parses back from its parenthesised printing |
| ShellGrammar.ParseMap | user/sh.c:333-452 | the parser never looks inside words |
| ShellText.LexText | user/sh.c:271-314 | gettoken reads back the tokens of a written line |
| ShellText.RoundTrip | user/sh.c:271-452 | on characters: printing a tree of valid words and parsing the text gives spans that spell the same tree |
| Shell.Parser.GetToken | user/sh.c:271-314 | gettoken's kind, span and cursor for every line |
| Shell.Parser.Peek | user/sh.c:316-326 | the cursor skips white space only, and the answer is about the character there |
| Shell.Parser.ParseRedirs | user/sh.c:380-403 | all redirections are taken in order, or a missing file is the panic |
| Shell.Parser.ParseExec | user/sh.c:421-452 | parseexec terminates and agrees with the grammar, panics included |
| Shell.Parser.ParseBlock | user/sh.c:405-419 | so does parseblock |
| Shell.Parser.ParsePipe | user/sh.c:367-378 | so does parsepipe |
| Shell.Parser.ParseLine | user/sh.c:350-365 | so does parseline |
| Shell.ParsedSpans | user/sh.c:271-452 | every pointer pair in a parsed tree is a whole word of the line |
| Shell.Parser.NulTerminate | user/sh.c:455-499 | NULs at the ends of the tree's words and inside no word |
| Shell.StringsAre | user/sh.c:455-499 | after that every pointer is a C string equal to its token |
| Shell.Parser.ParseCmd | user/sh.c:333-348 | the grammar's tree or its panic, with pointers that are C strings spelling its words |
| Grep.HereStar | user/grep.c:99-106 | a starred atom spells any run of characters it fits, then the rest follows |
| Grep.MatchHere | user/grep.c:85-96 | true exactly when the pattern spells a prefix of the text, all of it if anchored |
| Grep.MatchStar | user/grep.c:99-106 | true exactly when some run of the atom is followed by the rest |
| Grep.Match | user/grep.c:72-82 | true exactly when the declarative reading of the pattern accepts the text |

## Left out

- Swapping (kernel/swap.c) and kalloc's retry through it: entries are resident or absent, and kalloc pops the free list or returns 0.
- The page-fault dispatch in kernel/trap.c: a user store is one step that runs cowfault on a copy-on-write page.
- Pages without PTE_U in fork: uvmcopy skips them, and so does the view of user pages.
- CowMemory.CowMemory.Walk: how many table pages an address still needs is a parameter of the copy-on-write model; the tree itself is PageTree and PageTable.
- CowMemory.CowMemory.Kalloc: the retry through select_victim_page is left out with the rest of swapping.
- CowMemory.CowMemory.Uvmunmap: only with do_free, as user memory is unmapped; PageTable has both.
- RedoLog.Log.Record: the list half of log_write; the check of outstanding and the pin are `LogWrite` in LogProtocol.
- RedoLog.Log.ReadHead: the header on disk lists at most LOGBLOCKS home blocks without repeats, as write_head leaves it; read_head itself does not check.
- BufferRing.BufferCache.Bget: running out of buffers stays a panic, since a full log pins as many buffers as there are.
- LogTheorems.PanicMeansReservationsSpent: log_write can still panic for an operation that has used up its reservation, because the size check comes before absorption; LogPanic.PanicReached is such a run.
- FileOverlap.OverlappingWritesSurvive: that a block write under an inode's lock leaves other files alone, and that a file has taken its bytes when the lock is given up, are hypotheses about the interleaved steps, since the methods of FileSystem run one operation at a time; FileOverlap.OnlyOwnBlocks gives the first from block ownership.
- FileCommit.DiskIsLocal: fields are words rather than bytes, and the superblock and device numbers are left out.
- FileSystem.FileSys.Writei: a user copy moves all bytes of its chunk or none; a partial copy would change a cached block without logging it.
- FileSystem.FileSys.Filewrite: pipes and devices, and the file table's reference counts, are not modelled.
- InodeTable.Itable.Iput: directories, link counts and paths are not modelled; the number of links is whatever the inode says.
- Umalloc.Heap.Malloc: nbytes is unbounded here, while the C code needs a byte count that fits sbrk's int; sbrk's results are unit-aligned and increasing.
- Virtqueue.Disk.DeviceComplete: the device reports success only; another status is a panic in the interrupt handler.
- ProcTheorems.ContextUnderLock: interrupt enabling (noff, intena) is not modelled beyond counting the locks a CPU holds.
- ProcModel: process ids grow without bound, and kernel code other than the functions modelled is any use of one condition lock at a time.
- copyinstr, walkaddr, uvmclear, kernel page tables, ialloc, directory code, exec, pipes, console, drivers other than the disk, and user programs other than the three modelled.
