# xv6-riscv in Dafny

A model of the hard parts of the xv6-riscv kernel and of two of its user programs, and proofs about
it. `dafny verify dfyconfig.toml` checks everything.

The parts, one module a file unless said otherwise:

- **Redo log** (`Log.dfy`, `LogDevice.dfy`; disk blocks in `Blocks.dfy`). `LogSpec` is the protocol
  of kernel/log.c as a transition system whose steps are lock regions and single disk writes, with a
  crash possible between any two; `LogDevice` is the code, with the disk after every write on record.
- **Buffer cache** (`Bio.dfy`): the LRU ring, use counts, pins, and agreement with a plain block map;
  `LogCache.dfy` joins it with the log.
- **Files** (`Fs.dfy`, `Writes.dfy`, `FileSystem.dfy`): bitmap, inodes with direct and indirect blocks,
  reading, writing and truncating, which blocks each transaction logs and when space runs out, with
  calls that reach the bounds in `Worst.dfy`.
- **Inode table** (`Itable.dfy`) and **link counts** (`Links.dfy`).
- **Processes** (`Proc.dfy`): scheduling, sleep and wakeup, fork, exit, wait, sleep-locks, as a
  transition system over processes, CPUs and spin locks, with a program counter for every thread.
- **Virtual memory** (`Vm.dfy`, `Memory.dfy`, `Copy.dfy`): the page allocator, three-level page tables
  as a map from virtual pages, address spaces, and copies between kernel and user.
- **Pipes** (`Pipe.dfy`) and the **virtio disk driver** (`Virtio.dfy`; VIRTIO 1.1, sections 2.6.5,
  2.6.6 and 2.6.8, against any device that keeps to them).
- **User heap** (`Umalloc.dfy`) and the **shell's parser** (`Shell.dfy`).

Calls to panic() are obligations where callers have to prevent them, and results where the code takes
them. What the code gets from outside comes as parameters: how much of a user buffer can be copied,
when a process is seen to be killed, whether a block can be allocated, what sbrk and the device do.

## What the proofs say about limits of the code

- begin_op reserves against LOGSIZE, but log_write also refuses at log.size - 1, and mkfs makes
  log.size equal to LOGSIZE. `LogSpec.ReservationSuffices` gives the exact condition,
  `LogSpec.AbsorbingCanPanic` a panic that remains on larger logs.
- writei may release a changed buffer without logging it when a copy fails part-way;
  `FileSystem.SpillShows` says from the arguments and the old contents exactly when that can be seen,
  and `WorstCase.SpillSeen` is a call where it is.
- filewrite's chunks of three blocks are as long as they can be: `WorstCase.TenLogged` uses the whole
  reservation and `WorstCase.ElevenLogged` exceeds it for every greater length.
- A writer killed in mid-write leaves readers asleep beside data: the last clause of `Pipe.Pipe.Write`
  is the exact condition, `Pipe.StuckReader` a run.
- The ".." of a removed directory may name an inode that was freed: `Links.DotDot` and
  `Links.StaleDotDot`. create does not refuse a removed parent, which is why link counts are a bound
  and not an equality.
- Cache agreement is about devices other than 0, as static buffers start out as device 0, block 0.
- Requests to malloc stay below 2^31 bytes, because morecore passes a byte count to sbrk(int).

## Model

| member | source | states |
|---|---|---|
| LogSpec.PutHead | kernel/log.c:102-114 | the header block that write_head leaves, stale entries and all, reads back as the list it was made from |
| LogSpec.InstallAt | kernel/log.c:68-83 | installing the first k slots changes exactly the home blocks they are for, to the slots' contents |
| LogSpec.RecoveredAt | kernel/log.c:116-123 | recovery of any disk, block by block: a block the header lists comes from its slot, any other stays |
| LogSpec.StepKeeps | kernel/log.c:126-235 | every begin_op, log_write, end_op, single disk write of commit or of recovery, and every crash keeps the log invariant |
| LogSpec.CrashAtomicity | kernel/log.c:68-123 | after any run from any disk that can be recovered, with any number of crashes, also inside recovery, recovering the disk gives what recovery would have given at first, changed by exactly the groups committed since, in order |
| LogSpec.CommitPoint | kernel/log.c:178-203 | the current group becomes durable exactly when the first write_head of its commit reaches the disk, and no other step changes what is durable |
| LogSpec.OperationAtomicity | kernel/log.c:126-203 | in every run each operation is wholly in one committed group or in none |
| LogSpec.RecoveredIsDurable | kernel/log.c:116-123 | in every phase of commit and recovery, recovering the present disk gives the committed groups |
| LogSpec.RecoveryRestores | kernel/log.c:116-123 | recovery that runs to its end leaves the committed groups on the home blocks and an empty header |
| LogSpec.NoPanic | kernel/log.c:214-235 | with log.size - 1 >= LOGSIZE, logging a new block within an operation's budget never panics, and no commit is under way |
| LogSpec.PanicsWhenFull | kernel/log.c:214-235 | an active operation's log_write panics exactly when the list has min(LOGSIZE, log.size - 1) blocks; with LOGSIZE of them the operation's whole reservation is spent |
| LogSpec.Admits | kernel/log.c:126-142 | in every run a new operation begins exactly when no commit is under way and lh.n plus a full reservation for it and for each active operation is at most LOGSIZE; if it waits, a commit is under way or an operation is active |
| LogSpec.BeginsOnNonEmptyList | kernel/log.c:126-142 | whatever the disk, there is a run in which an operation begins with blocks of another in the list |
| LogSpec.LastEndCommits | kernel/log.c:146-175 | in every run end_op starts a commit exactly when it ends the only active operation, never panics, and no operation is active during a commit |
| LogSpec.ReservationSuffices | kernel/log.c:126-142 | begin_op's reservation prevents every such panic in every run if and only if log.size - 1 >= LOGSIZE, which mkfs misses by one |
| LogSpec.AbsorbingCanPanic | kernel/log.c:214-235 | a run on a large enough log in which logging again a block already in the list panics, because the size is looked at before the search |
| LogDevice.Log.TryBeginOp | kernel/log.c:126-142 | one pass of begin_op's loop admits exactly when no commit is under way and lh.n plus MAXOPBLOCKS for each outstanding operation and this one is at most LOGSIZE |
| LogDevice.Log.LogWrite | kernel/log.c:214-235 | log_write absorbs a block already listed and appends a new one |
| LogDevice.Log.ReadHead | kernel/log.c:86-97 | the loop reads back the list in the header block |
| LogDevice.Log.WriteHead | kernel/log.c:102-114 | the loop and the one disk write leave the specified header |
| LogDevice.Log.WriteLog | kernel/log.c:178-191 | each slot write leaves a disk that recovers to the old home blocks |
| LogDevice.Log.InstallCommitted | kernel/log.c:68-83 | each install write leaves a disk that recovers to the new home blocks |
| LogDevice.Log.Commit | kernel/log.c:193-203 | of all disks that a crash during commit can leave, those before the header write recover to the old home blocks and those from it on to the new; they are, write by write, those of the protocol |
| LogDevice.Log.EndOp | kernel/log.c:146-175 | the last operation to end commits, by the protocol's writes; of the disks on the way those before the header write recover to the old home blocks and those from it on to the new |
| LogDevice.EndOpRuns | kernel/log.c:146-175 | the disks that EndOp leaves one after the other are those of a run of LogSpec that ends the operation, makes every write of the commit and is done |
| LogDevice.Log.InstallRecovered | kernel/log.c:68-83 | recovery's copying keeps the recovered home blocks at every write, so that it can be interrupted and begun again |
| LogDevice.Log.RecoverFromLog | kernel/log.c:116-123 | recovery leaves the recovered home blocks and an empty log, and every disk on the way recovers to the same |
| Bio.Unlink | kernel/bio.c:116-137 | taking a buffer out of the doubly linked ring leaves a ring in the same order without it |
| Bio.PushFront | kernel/bio.c:116-137 | linking a buffer after the head makes it the most recent and keeps the rest of the order |
| Bio.BCache.Binit | kernel/bio.c:36-53 | the loop links all NBUF buffers into one ring |
| Bio.BCache.Lookup | kernel/bio.c:58-89 | the forward scan finds the block's buffer if there is one |
| Bio.BCache.Victim | kernel/bio.c:58-89 | the backward scan finds the least recently used buffer that nobody uses |
| Bio.BCache.Bget | kernel/bio.c:58-89 | the cached buffer, or a recycled one for which no other exists, which of the buffers nobody uses was released longest ago; it fails exactly when the block is not cached and every buffer is in use |
| Bio.BCache.Bread | kernel/bio.c:92-103 | for every device but 0 the data returned is the value last logged or written for the block |
| Bio.BCache.LogWrite | kernel/log.c:214-235 | logging a buffer pins it once and makes its data the block's value |
| Bio.BCache.Bwrite | kernel/bio.c:106-112 | the block on disk and the block's value become the buffer's data |
| Bio.BCache.Bunpin | kernel/bio.c:146-151 | unpinning an installed block keeps the cache in agreement with the block map |
| Bio.BCache.ReleaseSleep | kernel/bio.c:116-137 | releasing a buffer whose changes were logged or written |
| Bio.BCache.DropRef | kernel/bio.c:116-137 | dropping the last use moves the buffer to the front of the ring, and only then, and it is then the one released most recently |
| Bio.PinnedStays | kernel/log.c:68-83 | a block logged and not yet installed stays in its buffer: bget never picks that buffer for another block |
| LogCache.LogWrite | kernel/log.c:214-235 | through the cache, log_write changes the block that clients see and not the disk, and log and cache stay in agreement |
| LogCache.WriteSlot | kernel/log.c:178-191 | what write_log reads through the cache and writes to a slot is what clients last logged |
| LogCache.InstallBlock | kernel/log.c:68-83 | installing a slot through the cache leaves what clients see as it was |
| FsSpec.Allocate | kernel/fs.c:65-88 | a zeroed block whose bit was clear joins the set bits, with no inode referring to it |
| FsSpec.RecordAddr | kernel/fs.c:382-421 | recording a held block in an inode makes that inode its one owner |
| FsSpec.RecordIndirect | kernel/fs.c:382-421 | the same for an entry of an indirect block |
| FsSpec.WriteBlock | kernel/fs.c:505-539 | writing a data block of one file changes that block of that file and no other block of any file |
| FsSpec.OneOwner | kernel/fs.c:425-453 | a block that an inode refers to is referred to from no other place |
| FsSpec.WroteContents | kernel/fs.c:505-539 | block-wise writes add up to one splice of the file's bytes |
| FsSpec.OthersContents | kernel/fs.c:505-539 | and leave every other file's bytes as they were |
| FileSystem.Fs.ScanBlock | kernel/fs.c:65-88 | the bit scan of one bitmap block finds its first free block |
| FileSystem.Fs.Balloc | kernel/fs.c:65-88 | a zeroed block that was free, its bit set and logged; 0 exactly when every bit is set; every block that changed is logged |
| FileSystem.Fs.BMap | kernel/fs.c:382-421 | the address of the n-th block, allocated if need be; only the slots that block needs are filled, exactly what filling them takes is logged, every block that changed is among it, and ownership and every file's data are kept, also when space runs out half-way |
| FileSystem.Fs.Bfree | kernel/fs.c:91-105 | clears the bit of a block in use and nothing else, and logs the map block |
| FileSystem.Fs.TruncDirect | kernel/fs.c:425-453 | frees the direct blocks, each of which is in use when it is freed; logs exactly the map blocks of those |
| FileSystem.Fs.FreeEntries | kernel/fs.c:425-453 | frees the blocks of the indirect block, each of which is in use when it is freed; logs exactly the map blocks of those |
| FileSystem.Fs.TruncIndirect | kernel/fs.c:425-453 | frees the indirect block's entries and then the block; logs exactly the map blocks of those |
| FileSystem.Fs.ITrunc | kernel/fs.c:425-453 | returns every block of the file to the bitmap, never frees a free block, and leaves every other file as it was; logs exactly the inode's block and the map blocks of the file's blocks, and so every block that it changes |
| FileSystem.Fs.WriteLoop | kernel/fs.c:505-539 | the loop of writei: bytes written, blocks logged and bytes left unlogged by a copyin that fails part-way, all from the arguments and the number of free blocks |
| FileSystem.Fs.WriteI | kernel/fs.c:505-539 | the count returned, from the arguments and whether enough blocks are free for the bytes tried; the splice, the new size, the type and link count kept, and every other file; exactly which blocks are logged, at most Cost + 1, and that every block changed is logged but for the one a part-way copyin reached; when that can be seen in the file, exactly; -1 exactly when the range starts past the end or ends past the largest file |
| FileSystem.Fs.ReadI | kernel/fs.c:471-496 | the requested slice clipped to the size; it changes, allocates and logs nothing |
| FileSystem.Fs.FileWrite | kernel/file.c:134-179 | returns the length exactly when the range is allowed, copyin reaches it all and enough blocks are free; how far it gets otherwise; type and link count are kept and the inode's block has what is in memory; the number of transactions, each a call of writei on its part that logs at most MAXOPBLOCKS blocks |
| FileSystem.Fs.Transact | kernel/file.c:134-179 | one transaction of at most three blocks' worth is one call of writei and logs at most MAXOPBLOCKS blocks |
| WriteSpec.FreeCount | kernel/fs.c:65-88 | every slot filled takes one free block and no free block goes elsewhere |
| WriteSpec.SpareKept | kernel/fs.c:382-421 | how many blocks are free beyond those a range still needs does not change while the range is mapped, so that whether space will run out can be told at the start |
| WriteSpec.LogBound | kernel/fs.c:505-539 | what the loop logs is at most the data blocks touched, a map block for each one allocated, and what the indirect block takes |
| WriteSpec.TransactionFits | kernel/file.c:134-179 | with the inode's block that fits the reservation for every chunk of at most three blocks' worth |
| WorstCase.TenLogged | kernel/file.c:134-179 | a call of writei for three blocks' worth that logs ten blocks: four of data, four of the map, the indirect block and the inode's |
| WorstCase.ElevenLogged | kernel/file.c:134-179 | for every greater length a call that logs eleven |
| WorstCase.SpillSeen | kernel/fs.c:505-539 | a call that returns 0 and logs no data block, after which the file reads differently |
| FileSystem.ReadBack | kernel/fs.c:471-539 | a read of the range just written returns the bytes written |
| FileSystem.SpillShows | kernel/fs.c:505-539 | after a part-way copyin the cached file is the old one with the returned count spliced in if and only if the bytes between the last whole block and where copyin failed lie past the old end or equal what was there; a condition on the arguments and the old contents |
| Itable.Table.IGet | kernel/fs.c:246-277 | the one entry for the inode with a reference more, or a recycled one when no entry has it; it fails exactly when the table is full of others |
| Itable.Table.IDup | kernel/fs.c:281-288 | one more reference |
| Itable.Table.Lock | kernel/fs.c:292-317 | a valid entry whose lock is got equals the inode on disk |
| Itable.Table.Load | kernel/fs.c:292-317 | whatever happened before, the fields are those on disk; it fails exactly when the inode is free there |
| Itable.Table.IUpdate | kernel/fs.c:225-241 | the inode on disk becomes the one in memory and every other valid entry still agrees with the disk |
| Itable.Table.Unlock | kernel/fs.c:320-327 | releasing an entry whose changes were written keeps the table in order |
| Itable.Table.IPutBegin | kernel/fs.c:336-362 | the freeing branch is taken exactly for the last reference to a valid inode without links, and then nobody else has the sleep-lock |
| Itable.Table.IPutInvalidate | kernel/fs.c:336-362 | after the free, the entry is not valid |
| Itable.Table.IPutDrop | kernel/fs.c:336-362 | one reference less |
| Itable.Table.constructor | kernel/fs.c:181-190 | the initial table satisfies the invariant |
| Itable.Table.IAllocOne | kernel/fs.c:198-219 | one round of ialloc's loop claims the inode exactly when it is free and keeps every valid entry in agreement with the disk |
| Itable.Sole | kernel/fs.c:336-362 | a process with the only reference to an entry is the only one that can hold its lock |
| Itable.Table.IAlloc | kernel/fs.c:198-219 | the rounds one after the other claim the first free inode |
| Itable.Reclaimed | kernel/fs.c:336-362 | the order of steps in which an inode is freed by one process and claimed by another before the final ref--: the second sees its new fields |
| Itable.Interleave | kernel/fs.c:198-362 | in any interleaving of such sections of any number of processes, what a caller sees once ilock is through is what is on disk, of an inode in use |
| Links.CountedHasLink | kernel/sysfile.c:188-243 | every counted entry names an inode in use with a link, so that the nlink < 1 panic cannot happen |
| Links.UnlinkedUnnamed | kernel/fs.c:336-362 | no counted entry names an inode without links |
| Links.AddEntry | kernel/fs.c:579-606 | a new entry keeps link counts, entries and directory tree in agreement |
| Links.EraseFile | kernel/sysfile.c:188-243 | so does clearing a file's entry |
| Links.EraseDir | kernel/sysfile.c:188-243 | so does removing an empty directory, whose parent has a link to lose |
| Links.CreateKeeps | kernel/sysfile.c:245-302 | so does a new inode, with the link its .. adds to the parent |
| Links.FreeKeeps | kernel/fs.c:336-362 | so does freeing an inode, with all entries it held |
| Links.DotDot | kernel/sysfile.c:188-243 | the .. of a directory that some entry names leads back to the directory of that entry, which has a link |
| Links.DotDotInUse | kernel/sysfile.c:188-243 | the .. of a directory that unlink has not removed names an inode in use |
| Links.StaleDotDot | kernel/sysfile.c:188-243 | the .. of a removed directory that is still open can name a free inode |
| Links.Directories.constructor | mkfs/mkfs.c:117-128 | a file system with only a root satisfies the invariant |
| Links.Directories.DirLookup | kernel/fs.c:551-575 | the first slot with the name |
| Links.Directories.FindSlot | kernel/fs.c:579-606 | a slot exactly when the name is absent and there is space; the slot is empty or the next one, and never one of the first two |
| Links.Directories.LinkBegin | kernel/sysfile.c:123-170 | raises the count of a file ahead of its entry; refuses directories |
| Links.Directories.LinkFinish | kernel/sysfile.c:123-170 | adds the entry exactly when the name is absent and there is space |
| Links.Directories.Lower | kernel/sysfile.c:123-243 | lowers a count that a call owes, which is at least 1 |
| Links.Directories.UnlinkErase | kernel/sysfile.c:188-243 | clears the first entry with the name; fails exactly for the dot names, a missing name or a directory that is not empty; counts are at least 1 where they are lowered |
| Links.Directories.IsDirEmpty | kernel/sysfile.c:173-186 | true exactly when no slot after the first two is in use |
| Links.Directories.Create | kernel/sysfile.c:245-302 | makes the inode and its entries exactly when they all fit, else changes nothing |
| Links.Directories.CreateCall | kernel/sysfile.c:245-302 | create from the lookup on: an existing file goes to the open of a plain file only, else a new inode is made when all fits; -1 where ilock panics, exactly for a name that leads to a free inode |
| Links.Directories.IPut | kernel/fs.c:336-362 | frees an inode exactly when the last reference goes and it has no links, and then no counted entry names it |
| ProcSpec.StepKeeps | kernel/proc.c:109-618 | every acquire, release, swtch, change or test under a lock and process-lock region of every routine keeps the invariant, for any number of CPUs, processes, conditions and locks |
| ProcSpec.RunsKeep | kernel/proc.c:232-255 | so the invariant holds in every state that any interleaving reaches from boot |
| ProcSpec.RunningOnce | kernel/proc.c:444-510 | whenever p->lock is free, p is RUNNING exactly when some CPU's c->proc is p, and then one only |
| ProcSpec.ParentAlive | kernel/proc.c:279-386 | every process that can run and every zombie, except init, has a parent that is runnable, running or sleeping, at every step |
| ProcSpec.FreedOnce | kernel/proc.c:390-435 | a zombie changes state only when its parent's wait frees it, once, under both locks, and no CPU is then on its kernel stack or has it as c->proc |
| ProcSpec.NoLostWakeup | kernel/proc.c:549-594 | while the lock of a condition is free, no process sleeps on the condition, or is past giving up the lock to do so, if the condition holds; any number of conditions share a lock, and a region may change, wake and sleep in any order that wakes before the lock is given up |
| ProcSpec.NoLostExit | kernel/proc.c:346-435 | a process asleep in wait has a child, and while wait_lock is free none of its children, its own or reparented to it, is a zombie |
| ProcSpec.WaitSleeps | kernel/proc.c:390-435 | a wait that has been through the table has no zombie child, and it sleeps exactly when some process has the caller as its parent and the caller has not been killed |
| ProcSpec.LifeCycle | kernel/proc.c:109-618 | in every run, for every step and process, the state and the parent after the step: a sleeper becomes runnable exactly by a kill of it or by a wakeup on the channel it sleeps on, a process runs exactly when a scheduler looks at it while it is runnable, a zombie is freed exactly by its parent's wait, a parent changes exactly in fork, in the exit of the old parent and when the process is freed |
| ProcSpec.ScanFinds | kernel/proc.c:444-483 | a scheduler left alone takes the first runnable process round the table from where it is |
| ProcSpec.SleepLock | kernel/sleeplock.c:21-41 | a sleep-lock is locked exactly while a process holds it, no process gets it while another has it, and when free it has no sleeper |
| ProcSpec.SchedSafe | kernel/proc.c:492-510 | at every sched() the CPU holds p->lock and no other lock, and p is not RUNNING: none of its panics can happen |
| ProcSpec.NoDeadlock | kernel/spinlock.c:21-72 | from every CPU that waits for a spin lock, the owners of the locks waited for lead within three steps to a CPU that can go on, also with locks taken under a process lock by fork and wait |
| ProcSpec.LockOrder | kernel/spinlock.c:21-72 | a CPU waits only for locks that come after all those it holds: wait_lock and condition locks, then process locks, then leaf locks |
| ProcSpec.GoesOn | kernel/spinlock.c:21-72 | a CPU that waits for no lock has a step to make |
| ProcSpec.HoldsStep | kernel/spinlock.c:21-72 | each step's acquire takes a free lock and each release drops one that is held |
| VmSpec.LastInjective | kernel/vm.c:85-103 | two virtual pages, of one address space or two, share a PTE only if they are the same |
| VmSpec.SetLeaf | kernel/vm.c:143-199 | changing the PTE of one page changes the mapping of that page and no other |
| VmSpec.AddTableLeaf | kernel/vm.c:85-103 | hanging a new table into the tree maps nothing and unmaps nothing |
| VmSpec.EmptyNoLeaves | kernel/vm.c:278-294 | an address space that maps nothing has no leaf in any of its tables, so that freewalk's panic cannot happen |
| VmSpec.PrunedLeaves | kernel/vm.c:278-294 | freeing one tree leaves every other address space as it was |
| Vm.Memory.constructor | kernel/kalloc.c:26-40 | freerange gives every page of the range to the allocator once |
| Vm.Memory.Kfree | kernel/kalloc.c:46-63 | a page in use becomes the first free one; freeing a free page is excluded at every call |
| Vm.Memory.Kalloc | kernel/kalloc.c:68-82 | the first free page, filled with junk, or 0 exactly when there is none |
| Vm.Memory.Walk | kernel/vm.c:85-103 | finds or makes the last-level table; no mapping of any address space changes; it fails only when pages run out |
| Vm.Memory.MapPages | kernel/vm.c:143-172 | inserts the mappings into the address space up to the point where a table cannot be allocated, and no other |
| Vm.Memory.UvmUnmap | kernel/vm.c:177-199 | removes exactly the given mappings; with do_free exactly their pages are freed, each once |
| Vm.Memory.UvmCreate | kernel/vm.c:203-212 | an address space that maps nothing |
| Vm.Memory.UvmAlloc | kernel/vm.c:232-256 | on success adds zeroed fresh pages with the given flags; on failure every mapping and every user page is as before; three free pages per new one suffice; a size too large for the pages there are is a failure like any other |
| Vm.Memory.UvmDealloc | kernel/vm.c:262-274 | frees exactly the pages between the two sizes |
| Vm.Memory.UvmCopy | kernel/vm.c:312-340 | the child gets the same bytes and flags in pages that were free; on failure both address spaces are as before |
| Vm.Memory.FreeWalk | kernel/vm.c:278-294 | frees the table and every table below it, each once |
| Vm.Memory.UvmFree | kernel/vm.c:298-304 | frees exactly the pages and tables of the address space and leaves all others alone |
| Vm.AddedUndone | kernel/vm.c:232-340 | unmapping what was added restores every mapping and every user page |
| CopySpec.Unshared | kernel/vm.c:312-340 | no user page is mapped twice, in one address space or in two |
| Vm.Memory.WalkAddr | kernel/vm.c:108-126 | the page exactly when the address is mapped for the user, else 0 |
| Vm.Memory.CopyOut | kernel/vm.c:358-383 | succeeds exactly when every byte's page is valid, user and writable; stores exactly what storing byte by byte would, up to the first address that fails |
| Vm.Memory.CopyIn | kernel/vm.c:388-408 | the same for loading |
| Vm.Memory.CopyInStr | kernel/vm.c:414-451 | the bytes up to the first NUL; fails exactly when an unreadable address or the limit comes first |
| CopySpec.StoredChunk | kernel/vm.c:358-383 | moving a chunk inside one page is storing its bytes one by one through the page table |
| CopySpec.LoadedChunk | kernel/vm.c:388-408 | a slice of one page is what loading byte by byte gives |
| CopySpec.StoredLoaded | kernel/vm.c:358-408 | what copyout stored, copyin loads |
| CopySpec.UserUnaliased | kernel/vm.c:358-408 | user bytes that can be read lie on pages of their own |
| Vm.OutThenIn | kernel/vm.c:358-408 | copyout and then copyin of the same user bytes gives them back, in every valid memory |
| Pipe.Pipe.Write | kernel/pipe.c:76-103 | how many bytes go in, what is returned and who is woken, from the arguments and the room there is; a sleeping reader still implies an empty, write-open pipe unless the writer is killed with bytes put in and bytes to go, exactly then |
| Pipe.Pipe.Read | kernel/pipe.c:105-130 | takes the oldest bytes; sleeps only when empty and write-open; a failing copyout loses one byte |
| Pipe.Pipe.Close | kernel/pipe.c:58-74 | wakes the other side; when the pipe is freed nobody sleeps on it |
| Pipe.Pipe.FullTest | kernel/pipe.c:76-103 | the comparison of wrapping 32-bit counters says exactly that the buffer is full |
| Pipe.Pipe.EmptyTest | kernel/pipe.c:105-130 | and the other exactly that it is empty |
| Pipe.Interleave | kernel/pipe.c:58-130 | in every interleaving at most PIPESIZE bytes are inside; readers get the bytes put in, in order, less exactly those that a failing copyout lost, at most one a read; readers sleep only on an empty, write-open pipe unless a writer was killed in mid-write |
| Pipe.StuckReader | kernel/pipe.c:76-103 | a run that leaves a reader asleep beside a byte |
| Virtio.Disk.AllocDesc | kernel/virtio_disk.c:156-166 | takes the first free descriptor |
| Virtio.Disk.FreeDesc | kernel/virtio_disk.c:169-182 | frees a descriptor in use and wakes the waiters |
| Virtio.Disk.Alloc3 | kernel/virtio_disk.c:201-213 | three distinct free descriptors exactly when there are three, else none is taken, and those who waited are woken exactly when one was taken and put back |
| Virtio.Disk.FreeChain | kernel/virtio_disk.c:185-197 | frees the three descriptors of the request, none of them free before |
| Virtio.Disk.Submit | kernel/virtio_disk.c:215-292 | waits exactly when fewer than three descriptors are free, and says who else then waits; else a new chain of three, disjoint from all others, is handed to the device |
| Virtio.Disk.Finish | kernel/virtio_disk.c:215-292 | a completed request gives its three descriptors back |
| Virtio.Disk.IntrOne | kernel/virtio_disk.c:294-327 | the oldest completion clears the buffer that submitted it and no other; a panic exactly when the device reported an error |
| Virtio.Disk.Intr | kernel/virtio_disk.c:294-327 | all completions there are, and no other request, become done, across wrap of the 16-bit index; a panic exactly when one of them is an error |
| Virtio.Disk.InFlight | kernel/virtio_disk.c:22-59 | at most NUM/3 requests are in flight |
| Virtio.Interleave | kernel/virtio_disk.c:215-327 | in any interleaving of processes, device and rounds of the handler at most NUM/3 requests are in flight, and only an error that the device reported makes the handler panic |
| Virtio.Disk.DeviceTake | kernel/virtio_disk.c:272-277 | the device finds the head that was put into the avail ring: no entry was overwritten |
| Virtio.Disk.DeviceDone | kernel/virtio_disk.c:312-314 | completion in any order, with any status, overwrites no used entry that the driver has not seen |
| Virtio.AddChain | kernel/virtio_disk.c:215-292 | free descriptors and chains still partition the descriptors after a submit |
| Virtio.DropChain | kernel/virtio_disk.c:185-197 | and after a chain is freed |
| Umalloc.Heap.Search | user/umalloc.c:24-44 | the search ends, at the one free block that the freed one belongs after |
| Umalloc.StopsAt | user/umalloc.c:24-44 | the loop's two exits hold at that block and at no other |
| Umalloc.Heap.Free | user/umalloc.c:24-44 | the block joins the free blocks it touches; the list stays circular and ordered, no two free blocks touch, every unit stays in exactly one block and other live blocks keep their size |
| Umalloc.MergeUp | user/umalloc.c:33-37 | joining the block above |
| Umalloc.MergeDown | user/umalloc.c:38-42 | joining the block below |
| Umalloc.Heap.MoreCore | user/umalloc.c:46-61 | the heap grows by exactly the units granted, and some free block is then large enough |
| Umalloc.Heap.Malloc | user/umalloc.c:63-90 | ends with one call of morecore at most; returns a block of the asked size, disjoint from all others, cut from the end of the first block after freep that is large enough, or 0 exactly when nothing fits and sbrk fails; the heap grows exactly when nothing fits and sbrk does not fail, and no unit is lost |
| Umalloc.Heap.Carve | user/umalloc.c:74-85 | an exact fit leaves the list; of a larger block the upper end is taken and the list stays |
| Umalloc.Heap.Separate | user/umalloc.c:24-90 | blocks never overlap and free ones never touch |
| Shell.Parser.GetToken | user/sh.c:266-309 | the next token of the line and its place; the tokens left are those after it |
| Shell.Parser.Peek | user/sh.c:311-321 | whether the next token starts with one of the symbols; no token is consumed |
| Shell.Parser.ParseRedirs | user/sh.c:375-398 | the loop does what the parser on token sequences does, panics included |
| Shell.Parser.ParseExec | user/sh.c:416-447 | the same for a simple command, whose arguments are filled in inside the redirections already around it |
| Shell.Parser.ParseBlock | user/sh.c:400-414 | the same for a command in parentheses |
| Shell.Parser.ParsePipe | user/sh.c:362-373 | the same for a pipeline; the recursion ends on every input |
| Shell.Parser.ParseLine | user/sh.c:345-360 | the same for a line; the recursion ends on every input |
| Shell.LineParse | user/sh.c:345-447 | every syntax tree whose commands have fewer than MAXARGS arguments is parsed, from the tokens it prints as, to the command it means |
| Shell.LineTree | user/sh.c:345-447 | whatever the parser takes is what some such tree prints as, and the result is what it means |
| Shell.Decides | user/sh.c:328-447 | the parser takes a whole line exactly when some tree reads as the line |
| Shell.Unambiguous | user/sh.c:345-447 | no line has two meanings |
| Shell.LineWords | user/sh.c:345-447 | a command holds exactly the words it was written with, each once |
| Shell.Parser.NulTerminate | user/sh.c:450-494 | writes a NUL after each word of the command and changes nothing else |
| Shell.Readable | user/sh.c:450-494 | no terminator lands inside a word, so that each word reads as it stood in the line |
| Shell.Parser.ParseCmd | user/sh.c:328-343 | a command exactly when the line is in the grammar, and then the one it means, with each word readable as a C string in the buffer; else a panic with the buffer unchanged |

## Left out

- File table reference counts (filealloc, filedup, fileclose), path walking, open, mkdir, mknod and exec: calls into the parts above.
- kernel/trap.c, kernel/plic.c, kernel/start.c, kernel/uart.c, kernel/console.c and the assembly files: hardware plumbing. swtch is an atomic transfer of control and memory is sequentially consistent.
- Interrupt enabling (push_off, pop_off): a timer interrupt may make a process yield at any point where it holds no spin lock.
- The virtio registers and the feature negotiation of virtio_disk_init: the driver starts from an initialised queue.
- proc_pagetable and freeproc's page-table part: freeproc frees the trapframe page while it is still mapped, so those mappings are not user pages in the sense of the model. Kernel pages may be mapped any number of times.
- LogSpec.ReservationSuffices: the disk has at least LOGSIZE blocks after the log, from which the run that panics takes its blocks.
- ProcSpec.NoDeadlock: iput takes the spin lock inside ip->lock while it has itable.lock, here a leaf lock under which nothing is waited for. Nobody else can hold that spin lock then, since the reference is the last one; Itable.Sole has the sleep-lock's part of this.
- Liveness: that a sleeping process is eventually run, that kill is prompt, that spin locks are fair.
- Vm.Memory.MapPages: permissions without R, W or X are excluded, since such an entry reads as a table; no caller passes them.
- Vm.Memory.Kalloc: page contents are bytes and page-table pages are arrays of entries; that an entry is eight of a page's bytes is not modelled.
- Virtio.Disk.Intr: completions that the device adds while the handler runs are not seen by this method; Virtio.Interleave has them between the rounds of the loop.
- Links.Directories.Create: the inode of a create that fails is not seen between its allocation and its release; device numbers are not modelled.
- ProcSpec.StepKeeps: the killed flag is not kept; where the code looks at it, both branches are possible. The fields that fork copies are not modelled.
- Umalloc.Heap.Malloc: sbrk grants memory in units of 16 bytes.
- runcmd and the commands' execution.
