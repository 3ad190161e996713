# JOS and lwIP: verified models

This project models six stateful components of the JOS teaching kernel, its journalled file
server and its copy of lwIP, and proves what they keep over whole runs.

* **lwIP heap** (`HeapLayout`, `HeapRuns`, `Heap`): the in-band block list of `mem.c`. A list of blocks
  says what each call does; the pointer code over headers in memory is proved to do exactly that.
* **Pages, page tables and environments** (`PageState`, `Kernel`, `FreeList`): reference
  counts, the free lists, the two-level table as a flat map, teardown, and the memory system calls.
  In `Kernel` the free lists are sequences; `FreeList` shows separately that the pointer macros of
  `queue.h`, over links in memory, do to a list what `Kernel` does to those sequences.
* **Copy-on-write fork** (`Fork`, `ForkRuns`, `ForkScan`): the user-level protocol of `fork.c` as
  interleaved steps of any number of environments.
* **Files, block cache and journal** (`Bitmap`, `BitmapDisk`, `FileState`, `Files`, `BlockCache`,
  `JournalState`, `Journal`, `Handles`): block allocation, file bytes, write-back caching, and the order of
  disk writes around a commit. Every disk a crash could leave is recorded and judged.
* **Packet buffers** (`PbufState`, `Pbuf`, `PbufRuns`): shared, reference-counted chains against flat bytes.
* **Timeouts, pipes and scheduling** (`Timeouts`, `PipeBuffer`, `PipeEnd`, `Sched`).

`Base` holds the option type, bytes and permission bits. Modules named `...State`, and those about
whole runs, hold values and lemmas; the class beside them holds the code that changes fields,
proved against them.

## Where the code falls short of its documentation

* `mem_malloc` and `mem_realloc` round sizes up in 32 bits, which wraps just below 2^32
  (`MallocExact`, `MallocWraps`, `ReallocExact`).
* `pbuf_cat`, `pbuf_dechain` and `pbuf_realloc` leave wrong `tot_len` fields when another chain
  leads into the one they change (`JoinTotals`, `Dechain`, `Realloc`; pools on which they do:
  `CatWrong`, `DechainWrong`, `ReallocWrong`).
* Logging a handle in a transaction that is already active makes the next write of its sector
  unsafe (`AddExact`). The server never does it: a commit and the end of the transaction belong
  to one request.
* A write is lost from the journal when its transaction has handles but no write to the same file: the
  search counts an unsigned index below zero and gives up. A write that overlaps the one it is merged
  into, or leaves a gap, is recorded wrongly (`RecordedExact`, `MergeExact`, `FirstWriteLost`).
* `dup` does not check `newfdnum`; from MAXFD on it names data pages (`DupExact`, `DupFalseEof`). Of
  two equal numbers it closes the descriptor (`DupDoes`).
* `devpipe_read` can report the end of the file with bytes still in the pipe, when they were written
  after it found the pipe empty and before it asked about the writers (`EofExact`, `EofLost`).
* Destroying the current environment restarts the scan of `sched_yield`, so that environments
  from 3 on can wait for ever (`Starves`; exactly when: `WaitExact`, `WaitExactThree`,
  `FirstTwoRun`).
* A timeout whose remaining difference is 2^32 - 2 ms is taken for `SYS_ARCH_NOWAIT`, and its handler
  runs without any wait (`TimeoutExact`, `TakeTurn`; inputs on which it does: `RunsAtOnce`).
* `sys_page_alloc` with permissions that lack PTE_W panics in the kernel, which clears the page through
  the new mapping (`SysPageAlloc`).
* `free_block` and `occupy_block` flush the first bitmap block only, and the journal sits where a
  second one would be, so that bits of blocks from 32768 on do not reach the disk and lie in the
  journal (`OccupyExact`, `FreeExact`, `MagicSpoilt`).

## Model

| member | source | states |
|---|---|---|
| `HeapLayout.TakeKeeps` | lab/net/lwip/core/mem.c:479-605 | taking a fitting block leaves a tiling of the heap by blocks of at least the minimal size with no two free neighbours; the live allocations are the old ones and the new one, which has the rounded size, or the whole block when the rest of it could not be a block |
| `HeapLayout.FreeKeeps` | lab/net/lwip/core/mem.c:294-340 | releasing a block keeps that invariant and removes exactly that allocation |
| `HeapLayout.ShrinkKeeps` | lab/net/lwip/core/mem.c:354-468 | shrinking keeps it and touches no other allocation; the requested bytes are left, exactly if a free block follows, and otherwise with no more than could not be a block |
| `HeapLayout.NoneLost` | lab/net/lwip/core/mem.c:221-605 | every byte of the heap is in a free block exactly if it is in no live one |
| `HeapLayout.Canonical` | lab/net/lwip/core/mem.c:221-254 | the live blocks determine the whole block list, so equal allocations mean equal headers |
| `HeapRuns.MallocExact` | lab/net/lwip/core/mem.c:479-605 | a non-zero request gets the lowest block that holds it, and NULL only when none does, if and only if rounding does not wrap in 32 bits or nothing is free |
| `HeapRuns.MallocGives` | lab/net/lwip/core/mem.c:479-605 | a success is one more allocation in the lowest block that fits, less than a minimal block longer than asked for, and every other byte that was free still is; a failure changes nothing |
| `HeapRuns.MallocWraps` | lab/net/lwip/include/lwip/mem.h:91-93 | a request of 2^32 - 3 bytes is answered with a 12-byte block |
| `HeapRuns.ReallocExact` | lab/net/lwip/core/mem.c:354-468 | mem_realloc fails exactly when the block is too small, if and only if rounding does not wrap |
| `HeapRuns.ReallocGives` | lab/net/lwip/core/mem.c:354-468 | a success leaves the allocation in place with the bytes asked for and less than a minimal block more, and what it gives back is free; a failure changes nothing |
| `HeapRuns.StepKeeps` | lab/net/lwip/core/mem.c:294-605 | every legal malloc, free or realloc call keeps the invariant |
| `HeapRuns.RunKeeps` | lab/net/lwip/core/mem.c:221-605 | so does every run of them, and when everything is released the heap equals its state after mem_init |
| `HeapRuns.FreeUndoesMalloc` | lab/net/lwip/core/mem.c:294-605 | mem_free of a fresh allocation restores every header |
| `HeapRuns.LiveApart` | lab/net/lwip/core/mem.c:479-605 | live allocations never overlap |
| `HeapLayout.FreeByMerging` | lab/net/lwip/core/mem.c:221-254 | merging with the right and then the left free neighbour is releasing a block and keeping free space unsplit |
| `HeapLayout.LowAfterTake` | lab/net/lwip/core/mem.c:573-582 | taking a block above the lowest free one leaves the lowest free block in place |
| `Heap.MemHeap.constructor` | lab/net/lwip/core/mem.c:259-286 | the heap starts as one free block |
| `Heap.MemHeap.PlugHoles` | lab/net/lwip/core/mem.c:221-254 | the header writes of plug_holes turn a released block into the merged one, keep lfree the lowest free block and all payload bytes in use |
| `Heap.MemHeap.Search` | lab/net/lwip/core/mem.c:515-537 | the scan from lfree finds the lowest fitting block or none |
| `Heap.MemHeap.Malloc` | lab/net/lwip/core/mem.c:479-605 | the pointer code does to the headers what the block-list function says, keeps prev the inverse of next except at the end marker and lfree the lowest free block, and keeps every byte of every live payload |
| `Heap.MemHeap.Release` | lab/net/lwip/core/mem.c:294-340 | the same for mem_free, which ignores NULL and pointers outside the heap |
| `Heap.MemHeap.Realloc` | lab/net/lwip/core/mem.c:354-468 | the same for mem_realloc, with its out-of-range and too-large cases |
| `PageState.TakeKeeps` | lab/kern/pmap.c:553-567 | page_alloc takes the first free page and keeps exact counts and an exact free list |
| `PageState.GiveKeeps` | lab/kern/pmap.c:573-584 | page_free of an unreferenced page restores them |
| `PageState.LinkKeeps` | lab/kern/pmap.c:698-717 | one more entry naming a page is one more reference to it |
| `PageState.UnlinkKeeps` | lab/kern/pmap.c:801-820 | clearing an entry drops one reference and frees the page exactly when it was the last |
| `PageState.NewTableKeeps` | lab/kern/pmap.c:615-648 | a table made by pgdir_walk changes no mapping |
| `PageState.InsertKeeps` | lab/kern/pmap.c:672-717 | page_insert changes the mapping of one virtual page of one environment and no other |
| `PageState.InsertWhole` | lab/kern/pmap.c:672-717 | the same from before pgdir_walk, with counts and free list exact |
| `PageState.RemoveKeeps` | lab/kern/pmap.c:801-820 | page_remove unmaps one virtual page and drops one reference |
| `PageState.TakeGive` | lab/kern/syscall.c:268-276 | giving a page straight back after taking it leaves everything as it was |
| `PageState.TeardownCounts` | lab/kern/env.c:377-425 | after a teardown the count of every page is the old one minus the references the environment held |
| `PageState.FreeingEnds` | lab/kern/env.c:416-425 | when all directory entries are done, dropping the directory completes the teardown |
| `Kernel.Machine.constructor` | lab/kern/pmap.c:492-526 | after page_init and env_init exactly the pages not in use are free, once each, and no environment is live |
| `Kernel.Machine.PageAlloc` | lab/kern/pmap.c:553-567 | NULL exactly when the free list is empty; otherwise its first page |
| `Kernel.Machine.PageDecref` | lab/kern/pmap.c:590-595 | the page is freed exactly when its count reaches zero |
| `Kernel.Machine.PgdirWalk` | lab/kern/pmap.c:615-648 | finds the table of an address, or makes one from a free page, or fails without any change |
| `Kernel.Machine.PageLookup` | lab/kern/pmap.c:767-784 | the page the flat map has at that address, with nothing changed |
| `Kernel.Machine.PageInsert` | lab/kern/pmap.c:672-717 | succeeds exactly when the table exists or a page is free; then only the target mapping changes; same-page reinsertion changes no count; failure changes nothing |
| `Kernel.Machine.PageRemove` | lab/kern/pmap.c:801-820 | only the target mapping goes, one reference is dropped, and the panic about a zero count cannot happen |
| `Kernel.Machine.EnvFree` | lab/kern/env.c:377-425 | drops one reference per user mapping, per table and for the directory, frees the pages nobody else refers to once each, and leaves all other mappings unchanged |
| `Kernel.Machine.EnvSetupVm` | lab/kern/env.c:103-147 | a new directory that maps nothing, or no change |
| `Kernel.Machine.EnvAlloc` | lab/kern/env.c:157-225 | exact result codes; the first free slot gets its next id, the parent and an empty address space, and nothing else changes |
| `Kernel.NextId` | lab/kern/env.c:171-175 | the next id of a slot encodes the slot, is higher by one generation until that would pass 2^31, and starts again then |
| `Kernel.Machine.EnvDestroy` | lab/kern/env.c:432-441 | teardown, and curenv becomes NULL if it was the one destroyed |
| `Kernel.Machine.Resolve` | lab/kern/env.c:33-68 | the environment an id names if the caller may act on it: the caller itself or a child of the caller, live, with just that id; none in every other case |
| `Kernel.NamesOne` | lab/kern/env.c:43-55 | an id names at most one live environment |
| `Kernel.Machine.SysPageAlloc` | lab/kern/syscall.c:237-284 | exact result codes, with a panic in place of success when the permissions lack PTE_W, since the page is cleared through its new mapping; the environment is the one the id names, the caller or its child; on success a zeroed page from the free list is mapped there and no other mapping and no contents change; on any error nothing does |
| `Kernel.Machine.SysPageMap` | lab/kern/syscall.c:302-357 | exact result codes, including the refusal to gain write access; both environments are the caller or its children; only the target mapping changes |
| `Kernel.Machine.SysPageUnmap` | lab/kern/syscall.c:366-388 | exact result codes; the environment is the caller or its child; only the target mapping changes |
| `Kernel.Machine.SysExofork` | lab/kern/syscall.c:77-106 | exact result codes; a new environment that maps nothing, not runnable, with the caller as parent |
| `Kernel.Machine.SysEnvDestroy` | lab/kern/syscall.c:54-65 | exact result codes, and the teardown of the caller or its child |
| `Kernel.OnlyRightful` | lab/kern/env.c:33-68 | whatever call is made, an environment whose directory or mappings it changes is the caller, a child of the caller or a new child |
| `Kernel.NoSuchEnv` | lab/kern/env.c:43-55 | a call with an id that no live environment has changes nothing and answers -E_BAD_ENV, or -E_INVAL for bad addresses or permissions |
| `Kernel.Machine.Run` | lab/kern/pmap.c:553-820 | over every run of these calls, up to a panic if one comes, every call does what is stated for it, so that the two statements above hold of each, every mapping below UTOP has user permission bits only, pp_ref is the number of entries and directories naming the page, and the free list holds the unreferenced managed pages once each |
| `Kernel.InvalExact` | lab/kern/syscall.c:225-388 | -E_INVAL is answered to exactly the bad addresses and permissions and, by sys_page_map, only for a source that is not mapped there or is asked to become writable; nothing has changed then |
| `Kernel.NoGain` | lab/kern/syscall.c:302-357 | no call gives out write access nobody had: a writable mapping was there before, or its page was writable somewhere before, or the page was free |
| `FreeList.InsertLinks` | lab/inc/queue.h:201-206 | the pointer writes of LIST_INSERT_HEAD put an element in front of the list the links spell |
| `FreeList.RemoveLinks` | lab/inc/queue.h:212-217 | those of LIST_REMOVE take out an element at any position |
| `FreeList.List.InsertHead` | lab/inc/queue.h:201-206 | the list is the old one with the element in front |
| `FreeList.List.Remove` | lab/inc/queue.h:212-217 | the list is the old one without that element |
| `Fork.StepKeeps` | lab/lib/fork.c:15-190 | every system call, copied byte and user store of every environment, in any order, keeps the copy-on-write invariant |
| `Fork.NoMixedMappings` | lab/lib/fork.c:75-110 | outside a duppage in progress no page has both a copy-on-write and a writable mapping |
| `Fork.StepIsolated` | lab/lib/fork.c:15-190 | a step of one environment changes what no other one sees in its private pages, except the child it is making |
| `Fork.OwnView` | lab/lib/fork.c:15-62 | fault handling and fork are invisible to the program that triggers them; a store changes just its byte |
| `Fork.DupCopies` | lab/lib/fork.c:75-110 | duppage gives the child what the parent sees at that moment |
| `Fork.StepSnapshot` | lab/lib/fork.c:75-190 | after that no step of anybody changes the child's copy until the child runs |
| `Fork.ForkCovers` | lab/lib/fork.c:128-190 | when the child is made runnable it maps exactly what its parent maps from UTEXT to UTOP: the same page where the mapping is shared or read-only, copy-on-write where the parent can store; its exception stack is its own and writable |
| `Fork.StepPerms` | lab/lib/fork.c:15-190 | faults and forks of anybody leave a page as it is, or a private page that can be stored to, at once or after a fault, one of that kind |
| `Fork.CanStore` | lab/lib/fork.c:29-35 | a page is of that kind exactly if a store to it succeeds or faults and is served |
| `Fork.RunKeeps` | lab/lib/fork.c:15-190 | the invariant holds in every state of every run |
| `Fork.RunIsolated` | lab/lib/fork.c:15-190 | over whole runs the private memory of an environment changes only by its own steps |
| `Fork.RunSnapshot` | lab/lib/fork.c:128-190 | over whole runs the copy a child got is a snapshot |
| `ForkRuns.Begins` | lab/lib/fork.c:128-150 | an environment with pages of its own and no fork under way satisfies the invariant |
| `ForkRuns.StepTouches` | lab/lib/fork.c:15-110 | no step changes a page another environment maps, shared or not, except a store through a shared mapping or in the middle of the duppage that gave the page away |
| `ForkRuns.StepShares` | lab/lib/fork.c:84-89 | a shared page changes by stores through any of its mappings, for all who map it, and by nothing else; forks leave its mappings |
| `ForkRuns.UserSteps` | lab/kern/syscall.c:237-388 | as the programs see them, allocating maps a page of zeros nobody had, unmapping takes the mapping away, and mapping a shared page a second time gives the same page |
| `ForkRuns.MidStep` | lab/lib/fork.c:90-99 | in the middle of a duppage the page of the child is left alone or is still the one its parent sees |
| `ForkRuns.ForkCopies` | lab/lib/fork.c:75-190 | over any run, a child made runnable has in a private page what its parent saw there at one moment of the duppage of that page, and can store there exactly if its parent could |
| `ForkRuns.FindDuppage` | lab/lib/fork.c:75-190 | every private page a child has, the exception stack aside, has had its duppage since the fork began or is in the middle of it |
| `ForkRuns.ForkGives` | lab/lib/fork.c:128-190 | over any run, from the beginning of a fork to its end: a child made runnable has in every private page, the exception stack aside, what its parent saw there at one moment of the fork, and can store there exactly if its parent could |
| `ForkRuns.ForkStacks` | lab/lib/fork.c:174-190 | at the end of a fork the exception stack of the child is a writable page of zeros, the child is runnable and the parent out of fork |
| `ForkRuns.RunPerms` | lab/lib/fork.c:15-190 | over any run in which an environment does not remap a page itself, the page stays as it is or one it can store to |
| `ForkRuns.FaultServed` | lab/lib/fork.c:15-62 | a store that faults is served: given a free page the handler can run to its end, after which the environment goes on where it was, sees what it saw and can store to the page |
| `ForkRuns.ForkGoesOn` | lab/lib/fork.c:75-190 | a fork under way can take its next step, given a free page, if and only if it has not met a page that fails the assertion of duppage |
| `ForkScan.Scan` | lab/lib/fork.c:153-171 | the address loop, with its skips of missing page tables, hands duppage every mapped user page from UTEXT to UTOP except the exception stack, in ascending order and once each |
| `Bitmap.BitsAfterSet` | lab/fs/fs.c:49-57 | setting the bit of a block in its 32-bit word frees that block and no other |
| `Bitmap.BitsAfterFlip` | lab/fs/fs.c:59-65 | flipping the bit of a free block occupies that block and no other |
| `BitmapDisk.OccupyExact` | lab/fs/fs.c:59-65 | occupy_block leaves the on-disk bitmap in agreement with the one in memory if and only if the block is below 32768 |
| `BitmapDisk.FreeExact` | lab/fs/fs.c:49-57 | so does free_block, or the block was free already |
| `BitmapDisk.MagicSpoilt` | lab/fs/fs.c:123-162 | the bit of block 32768 is the lowest bit of the journal magic number: the block looks free, taking it spoils the number, and the disk still has the block free |
| `BitmapDisk.Store.AllocBlock` | lab/fs/fs.c:75-96 | the lowest free block or none; taken from the bitmap in memory, and on the disk exactly if it is below 32768 or was taken there before |
| `BitmapDisk.Store.FreeBlock` | lab/fs/fs.c:49-57 | the bit is set in its word, and block 2 is flushed |
| `BitmapDisk.Store.Run` | lab/fs/fs.c:49-96 | on disks of up to 32768 blocks the on-disk bitmap follows every run of these calls, each of which takes the lowest free block or gives back its own and no other |
| `FileState.AttachKeeps` | lab/fs/fs.c:180-259 | storing a newly allocated block number keeps all block numbers in range, in use and pairwise distinct |
| `FileState.AttachBytes` | lab/fs/fs.c:227-259 | materialising a block changes no byte of any file |
| `FileState.DetachKeeps` | lab/fs/fs.c:487-527 | freeing a block and clearing its number keeps the same invariant |
| `FileState.PatchKeeps` | lab/fs/fs.c:461-483 | writing inside one block changes just those bytes of that file |
| `FileState.OwnedNotFree` | lab/fs/fs.c:38-65 | blocks of files are never marked free |
| `Files.FileSystem.constructor` | lab/fs/fsformat.c:97-127 | a disk whose files are all empty satisfies the invariant |
| `Files.FileSystem.AllocBlock` | lab/fs/fs.c:75-96 | the lowest free block, or none exactly when there is none |
| `Files.FileSystem.FileBlockWalk` | lab/fs/fs.c:180-217 | exact result codes; the place for the block exists afterwards; no byte changes, no block is lost; its assertion holds |
| `Files.FileSystem.FileGetBlock` | lab/fs/fs.c:227-259 | the block, materialised as zeros if it did not exist and entered where the block number says, in the file or in its indirect block, with every byte of every file unchanged; it fails only for a missing block, beyond the maximal size or on a full disk; its assertion holds |
| `FileState.NBlocksHold` | lab/fs/fs.c:517-518 | the block count of a size is the least number of blocks that holds it |
| `Files.FileSystem.FileFreeBlock` | lab/fs/fs.c:487-500 | exact result codes; exactly that block is given back |
| `Files.FileSystem.FileTruncateBlocks` | lab/fs/fs.c:511-527 | everything of the file beyond the new number of blocks is gone, index block included, and nothing else |
| `Files.FileSystem.FileSetSize` | lab/fs/fs.c:530-539 | growing changes no byte; shrinking drops whole blocks only, so a tail inside the last block stays |
| `Files.FileSystem.FileRead` | lab/fs/fs.c:433-455 | returns the bytes of the file as pread would, changes none, and stops early only at a missing block, beyond the maximal size or on a full disk |
| `Files.FileSystem.FileWrite` | lab/fs/fs.c:461-483 | the range written holds the buffer, every other byte of every file is as before, and the file has grown if it had to; it stops early only where the read would |
| `Files.ReadBack` | lab/fs/fs.c:433-483 | what was written is read back, and disjoint ranges and other files read as before |
| `Files.FileSystem.Serve` | lab/fs/fs.c:433-539 | over every run of reads, writes and resizes every request does what is stated for it, block numbers stay in range, in use and distinct, and free plus owned blocks is constant |
| `BlockCache.Cache.Fault` | lab/fs/bc.c:31-66 | reading a block in on demand changes nothing a client can see, and leaves the page marked dirty |
| `BlockCache.Cache.FlushBlock` | lab/fs/bc.c:75-105 | afterwards the block on the disk is the one in the cache and clean, no other block changes |
| `BlockCache.Cache.FlushSector` | lab/fs/bc.c:107-143 | exactly one sector on the disk changes, to what the cache has; the dirty bit stays |
| `BlockCache.Cache.SyncAll` | lab/fs/fs.c:612-618 | afterwards the disk equals what clients see, block 0 aside |
| `BlockCache.Cache.Run` | lab/fs/bc.c:31-143 | however faults, flushes, syncs and unmappings fall, loads and stores see plain memory, and a flush or sync leaves on the disk what they see |
| `JournalState.PushKeeps` | lab/fs/bc.c:75-143 | any sector of any block may reach the disk at any time without making an active record incomplete |
| `JournalState.SectorHolds` | lab/fs/jbd.h:50-72 | a transaction record lies within one sector, so that writing one sector writes it whole |
| `JournalState.CommitKeeps` | lab/fs/jbd.c:281-300 | once handles and index are flushed, one sector write makes the record active and complete |
| `JournalState.DeactivateKeeps` | lab/fs/jbd.c:311-314 | one sector write takes the record out of the journal |
| `JournalState.HandleKeeps` | lab/fs/jbd.c:234-248 | logging a handle keeps journal blocks in use, distinct and apart from those of files |
| `JournalState.EndedKeeps` | lab/fs/jbd.c:316-332 | and so does clearing a transaction |
| `JournalState.EndedFrees` | lab/fs/jbd.c:316-332 | exactly the blocks of the cleared transaction become free |
| `JournalState.AddExact` | lab/fs/jbd.c:234-300 | logging a handle and then writing the record's sector is safe if and only if the transaction is not active yet |
| `Journal.Server.constructor` | lab/fs/fsformat.c:128-137 | the invariant holds for a journal whose records are all unused, whatever their numbers |
| `Journal.Server.FlushBlock` | lab/fs/bc.c:75-105 | eight recorded sector writes or none; every disk in between is recoverable |
| `Journal.Server.AllocBlock` | lab/fs/fs.c:75-96 | the lowest free block, its bit on the disk when the call returns |
| `Journal.Server.StartTransaction` | lab/fs/jbd.c:138-185 | takes an unused record after the last one in use, fails exactly when the last is taken, changes nothing else, and its two assertions hold |
| `Journal.Server.HandleWalk` | lab/fs/jbd.c:39-72 | exact result codes; an index block is made if needed |
| `Journal.Server.GetHandle` | lab/fs/jbd.c:82-118 | exact result codes without alloc; a new handle block goes into the empty entry |
| `Journal.Server.AddHandle` | lab/fs/jbd.c:234-248 | the log of the transaction is longer by the handle, stamped with the transaction number; the files are untouched, in the cache and on every disk in between; it fails only for a full index or fewer than two free blocks |
| `Journal.Server.CommitTransaction` | lab/fs/jbd.c:256-301 | afterwards the record is active on the disk and complete there, unless nothing was logged; no block or bitmap bit of a file has changed on any disk in between |
| `Journal.Server.CommitAndWork` | lab/fs/serv.c:441-459 | the commit comes first: until the record is active on the disk no file has changed there, and from then on it stays active throughout the file work |
| `Journal.Server.FreeTransaction` | lab/fs/jbd.c:316-327 | the blocks are given back one by one, every disk in between recoverable |
| `Journal.Server.ClearTransaction` | lab/fs/jbd.c:303-333 | the record is inactive on the disk and unused, its blocks are free, and no file has changed on any disk in between |
| `Journal.Server.CommitWorkEnd` | lab/fs/serv.c:412-512 | write-ahead: of the disks a crash during one request can find, each has the files as before it, or the record active, or the files as after it, in that order; the file work is done and nothing is left active |
| `Journal.Server.Sync` | lab/fs/fs.c:612-618 | all blocks but number 0 are on the disk, every disk in between recoverable |
| `Journal.Server.Serve` | lab/fs/jbd.c:138-352 | cut any run of requests between any two sector writes: every record active on the disk has its index block and all handle blocks complete and in use there; every request does what is stated for it up to the first that is refused, and why is stated |
| `Handles.AddHandle` | lab/fs/jbd.c:187-248 | the whole of add_handle_to_transaction on the handles of a transaction: merged into the last earlier write to the same file if it fits, appended when it does not or there is nothing to merge with, lost when the search runs below zero, with its assertion as a panic |
| `Handles.MergeExact` | lab/fs/jbd.c:219-228 | the merged handle says what both said if and only if the write begins where the earlier one ends, or is empty |
| `Handles.RecordedExact` | lab/fs/jbd.c:206-248 | a write is recorded if and only if the transaction is empty, or the last write to the same file in it begins no later and is full or ends where this one begins |
| `Handles.FirstWriteLost` | lab/fs/jbd.c:206-232 | a write that follows the creation of its file in a transaction is not logged |
| `PbufState.FreedIs` | lab/net/lwip/core/pbuf.c:456-522 | pbuf_free takes one reference from each buffer it gets to, and changes nothing else |
| `PbufState.HitIs` | lab/net/lwip/core/pbuf.c:456-522 | those buffers are the leading run of count-1 buffers and the one after it |
| `PbufState.Holder` | lab/net/lwip/core/pbuf.c:456-522 | every live buffer is on the chain of some holder |
| `PbufState.AllGone` | lab/net/lwip/core/pbuf.c:456-522 | once all holders have let go no buffer is live |
| `PbufState.Reachable` | lab/net/lwip/core/pbuf.c:456-522 | whatever a holder can reach is live |
| `PbufState.JoinTotals` | lab/net/lwip/core/pbuf.c:572-595 | after pbuf_cat all totals are right if and only if nothing was added or no other buffer links into the head chain |
| `Pbuf.Buffers.Free` | lab/net/lwip/core/pbuf.c:456-522 | the pool is the one with that run gone; survivors keep their chains, bytes and totals; the count returned is the number freed in eight bits |
| `Pbuf.Buffers.Ref` | lab/net/lwip/core/pbuf.c:550-560 | one more reference, NULL ignored |
| `Pbuf.Buffers.Cat` | lab/net/lwip/core/pbuf.c:572-595 | the head's packet is the concatenation, packets that share no buffer with it are as they were, and the whole pool after it is given; counts stay exact; totals are right under the exact condition |
| `Pbuf.Buffers.Chain` | lab/net/lwip/core/pbuf.c:613-620 | the same with the caller's reference kept |
| `Pbuf.Buffers.Dechain` | lab/net/lwip/core/pbuf.c:630-659 | asked only that the total of the first buffer be right: that buffer is a packet of its own and one reference to the rest is released; the rest is returned if and only if somebody else refers to it; packets without that buffer keep their bytes; totals under the exact condition |
| `Pbuf.Buffers.Realloc` | lab/net/lwip/core/pbuf.c:268-327 | asked only that totals be right along the packet: the packet is the prefix of the requested length, the tail is released, packets sharing no buffer are untouched, the whole pool after it is given; right totals stay right if and only if no other buffer links into the buffers that held those bytes |
| `Pbuf.Buffers.CopyPartial` | lab/net/lwip/core/pbuf.c:743-779 | returns the requested slice, shorter only at the end of the packet |
| `Pbuf.Buffers.Copy` | lab/net/lwip/core/pbuf.c:679-732 | the start of the target packet is the source packet, the rest as before; ERR_ARG exactly for NULL or a target too short; ERR_VAL is never returned |
| `Pbuf.Buffers.Alloc` | lab/net/lwip/core/pbuf.c:143-207 | a chain of the requested total, or NULL exactly when the pool has too few buffers, with everything allocated so far released; live packets are untouched and no right total becomes wrong |
| `PbufRuns.Do` | lab/net/lwip/core/pbuf.c:143-659 | every legal call does what is stated for it, keeps counts and chains exact, and keeps right totals right if and only if the stated condition on the pool before the call holds |
| `PbufRuns.Run` | lab/net/lwip/core/pbuf.c:143-659 | so does every run of calls; once all references are given up no buffer is live, and totals stay right while every call meets its condition |
| `PbufRuns.CatWrong` | lab/net/lwip/core/pbuf.c:572-595 | a pool on which pbuf_cat leaves a wrong total |
| `PbufRuns.DechainWrong` | lab/net/lwip/core/pbuf.c:630-659 | a pool on which pbuf_dechain does, and the pool it leaves |
| `PbufRuns.ReallocWrong` | lab/net/lwip/core/pbuf.c:268-327 | a pool on which pbuf_realloc does, and the pool it leaves |
| `Timeouts.AbsSorted` | lab/net/lwip/core/sys.c:187-235 | deadlines never decrease along the list |
| `Timeouts.Inserted` | lab/net/lwip/core/sys.c:215-232 | splitting a difference adds one deadline and keeps all others |
| `Timeouts.Deleted` | lab/net/lwip/core/sys.c:263-274 | joining two differences removes one deadline and keeps all others |
| `Timeouts.PutAt` | lab/net/lwip/core/sys.c:215-232 | a deadline goes behind all that are due no later |
| `Timeouts.RemovePut` | lab/net/lwip/core/sys.c:187-279 | cancelling what was just registered gives the list back if nothing else matches |
| `Timeouts.AddTimeout` | lab/net/lwip/core/sys.c:187-235 | the list stands for one more deadline, due in exactly msecs and behind its ties; no subtraction underflows |
| `Timeouts.DropTimeout` | lab/net/lwip/core/sys.c:247-279 | the first match is removed, every other deadline stays, no addition exceeds 32 bits |
| `Timeouts.ShiftSooner` | lab/net/lwip/core/sys.c:106-115 | a message after some waiting brings every deadline closer by no more than that |
| `Timeouts.SignalReports` | lab/net/lwip/jos/arch/sys_arch.c:169-201 | a wait that gets its signal reports the time it took, in 32 bits, and less than its limit |
| `Timeouts.TurnPrompt` | lab/net/lwip/core/sys.c:74-105 | a handler runs as soon as it is due: the wait before it ends at the first round in which the time slept reaches its delay, and not earlier unless the semaphore went away |
| `Timeouts.WaitIs` | lab/net/lwip/jos/arch/sys_arch.c:169-201 | a wait ends in the first round that finds the limit reached, the semaphore up, no time allowed or the semaphore freed, and with what answer |
| `Timeouts.TimeoutExact` | lab/net/lwip/jos/arch/sys_arch.c:169-201 | unless the semaphore is freed, a wait times out no earlier than its limit if and only if the limit is not SYS_ARCH_NOWAIT |
| `Timeouts.SemWait` | lab/net/lwip/jos/arch/sys_arch.c:169-201 | the loop answers what those statements are about, its count of milliseconds wrapping at 32 bits |
| `Timeouts.Thread.Timeout` | lab/net/lwip/core/sys.c:187-235 | the same in the thread's list; nothing happens when no entry is left |
| `Timeouts.Thread.Untimeout` | lab/net/lwip/core/sys.c:247-279 | the same for cancellation |
| `Timeouts.Thread.Expire` | lab/net/lwip/core/sys.c:90-105 | the first timeout goes, its handler runs if there is one, and the list is what its registrations and cancellations make of the rest; a wait cut short is counted as skipped time |
| `Timeouts.Thread.Got` | lab/net/lwip/core/sys.c:106-115 | a message brings every deadline closer by the time reported, at most by the first difference |
| `Timeouts.Thread.TakeTurn` | lab/net/lwip/core/sys.c:65-117 | one turn of the wait: what it answers, what becomes of the list and which handler runs; unless the semaphore is freed, the first handler runs no earlier than due if and only if the first difference is not 2^32 - 2 |
| `Timeouts.Thread.Fetch` | lab/net/lwip/core/sys.c:65-117 | sys_mbox_fetch, and sys_sem_wait, turn by turn: it goes round again after a timeout and only then, and is done with the turn that brings a signal or had no timeout to wait for; no time is skipped unless a registration of 2^32 - 2 ms or more or a freed semaphore is involved |
| `Timeouts.Thread.Run` | lab/net/lwip/core/sys.c:65-174 | over every run, each step of which does what is stated for it, a handler runs at most once per registration and never before its time as the list counts it, which is the time waited if no registration reaches 2^32 - 2 ms and no semaphore is freed under a waiter |
| `Timeouts.RunsAtOnce` | lab/net/lwip/core/sys.c:76-105 | a timeout of 2^32 - 2 ms runs without any wait, and one of 2^32 - 1 ms does after a message that took 1 ms |
| `PipeBuffer.ReadKeeps` | lab/lib/pipe.c:104-137 | every single access of the reader keeps the ring buffer invariant |
| `PipeBuffer.WriteKeeps` | lab/lib/pipe.c:139-172 | and every one of the writer |
| `PipeBuffer.Fifo` | lab/lib/pipe.c:104-172 | for every interleaving of calls and accesses 0 <= wpos - rpos <= PIPEBUFSIZ, what was read is a prefix of what was written, and that of what was handed to devpipe_write |
| `PipeBuffer.ReadReturns` | lab/lib/pipe.c:104-137 | devpipe_read returns the number of bytes it has put into the buffer: all that were asked for, or those before the pipe was found empty, or none because the writers are gone |
| `PipeBuffer.WriteReturns` | lab/lib/pipe.c:139-172 | devpipe_write returns when everything is written, or 0 because the readers are gone |
| `PipeBuffer.Drains` | lab/lib/pipe.c:116-136 | a reader that is not interrupted takes what there is, up to what was asked for, and returns; it asks about the writers only if there is nothing |
| `PipeBuffer.Pours` | lab/lib/pipe.c:151-171 | a writer that is not interrupted writes everything if there is room, and otherwise fills the buffer and asks about the readers |
| `PipeBuffer.EofExact` | lab/lib/pipe.c:118-125 | when devpipe_read reports the end of the file, everything sent has been read if and only if nothing was written between its look at p_wpos and the answer that the writers are gone |
| `PipeBuffer.EofLost` | lab/lib/pipe.c:118-125 | an interleaving in which the end of the file is reported with a byte still in the pipe |
| `PipeEnd.StepKeeps` | lab/lib/fd.c:100-202 | every map, unmap and count of dup, close and _pipeisclosed keeps each mapped end paired with a mapping of the pipe |
| `PipeEnd.CountsAddUp` | lab/lib/pipe.c:185-190 | if every mapped end has the pipe mapped beside it, the pipe's count is at least the sum of the ends' counts |
| `PipeEnd.RunKeeps` | lab/lib/fd.c:100-202 | so over every interleaving the pipe's count is at least the sum of both ends' counts |
| `PipeEnd.NoFalseEof` | lab/lib/pipe.c:75-89 | the moment _pipeisclosed answers 1 the other end has no holder |
| `PipeEnd.AnswerExact` | lab/lib/pipe.c:75-89 | _pipeisclosed answers exactly if it was not interrupted between its two looks at env_runs; 1 only if the other end has no holder, and exactly then while nobody is opening or closing descriptors |
| `PipeEnd.AskAnswers` | lab/lib/pipe.c:75-89 | left alone it answers after one round, with the exact answer |
| `PipeEnd.CountKeeps` | lab/kern/env.c:469-496 | counts read between two equal values of env_runs were true of one state |
| `PipeEnd.CountsAgree` | lab/lib/pipe.c:185-190 | when no pipe mapping is without its end, the counts are equal, so the answer is exact |
| `PipeEnd.PipeOpened` | lab/lib/pipe.c:28-71 | after pipe() both ends are paired with the pipe page |
| `PipeEnd.DupSteps` | lab/lib/fd.c:174-202 | to a descriptor number, the steps of dup in a row have the effect of one call |
| `PipeEnd.DupDoes` | lab/lib/fd.c:174-202 | dup to a descriptor number makes it one for the same pages and leaves the others alone if and only if the numbers differ; otherwise the descriptor is closed |
| `PipeEnd.CloseSteps` | lab/lib/fd.c:149-159 | close takes away the descriptor, and the data page of an end, and leaves the others alone |
| `PipeEnd.DupExact` | lab/lib/fd.c:174-202 | for any oldfdnum and any newfdnum, negative ones included, dup keeps the pairing if and only if newfdnum does not name the data page of a mapped end, or the page mapped there is the pipe |
| `PipeEnd.DupFalseEof` | lab/lib/fd.c:174-202 | a writer whose dup replaces its pipe page makes the reader count a closed pipe |
| `Sched.Yield` | lab/kern/sched.c:54-94 | picks the next runnable environment in turn, number 0 only when no other is runnable |
| `Sched.Closer` | lab/kern/sched.c:54-83 | every choice brings those passed over strictly closer to their turn |
| `Sched.StretchLength` | lab/kern/sched.c:54-83 | e yields of which only the first follows a destruction make a stretch for environment e, e - 1 if it is the destruction of environment 1 before all of them, and NENV - 1 yields always do |
| `Sched.RunsSoon` | lab/kern/sched.c:54-94 | an environment that stays runnable is chosen by the end of every stretch |
| `Sched.FirstTwoRun` | lab/kern/sched.c:54-94 | environments 1 and 2 are chosen within NENV - 1 yields whatever is destroyed |
| `Sched.WaitExact` | lab/kern/sched.c:54-94 | for every environment from 4 on and every pattern of destructions: it may be passed over every time if and only if it was not destroyed itself before the first yield and the pattern has no stretch for it |
| `Sched.WaitExactThree` | lab/kern/sched.c:54-94 | for environment 3: if and only if it was not destroyed itself and no scan comes round to it with an even number of destructions, none included, before a yield without one, nor the first yields do after the destruction of 1 or 2 with the matching parity |
| `Sched.StretchTraps` | lab/kern/sched.c:54-94 | a stretch for environment 3 is such a scan or such a start |
| `Sched.Starves` | lab/kern/sched.c:57-63 | when 1, always runnable, makes 2 and yields and 2 exits, over and over, no environment from 3 on is ever chosen |

## Left out

- Drivers, port input and output, traps, the TLB and inline assembly: the disk is sectors with atomic single-sector writes.
- Kernel.Machine.PageInsert: counts are unbounded; `pp_ref` has 16 bits, and nothing in the kernel bounds the number of mappings of a page.
- Kernel.Machine.Run: IPC page transfer, `load_icode`, `sys_env_set_status` and the trap frame calls are not among the calls; they reuse `page_insert` or change no mapping.
- Kernel.Machine.EnvDestroy: the yield after the destruction of the current environment is in `Sched`.
- Kernel.Machine.EnvAlloc: registers, trap frame and priority of a new environment are not modelled.
- Heap.MemHeap.Release: memory pools and freeing from interrupt context are off, as configured; pointers that are not live allocations are outside its contract, as in the source.
- Fork.StepKeeps: failed system calls inside fork and the fault handler panic in the source and end the run here; mappings an environment makes by hand of private pages into others are excluded, only PTE_SHARE pages are mapped twice.
- ForkRuns.ForkGives: pages in PTE_SHARE mappings are common to parent and child and not part of it.
- Fork.ForkCovers: `sfork` and the copying of registers are not modelled.
- Files.FileSystem.FileGetBlock: asked only for blocks below the size of the file, as all its callers do; the source does not check it.
- Files.FileSystem.Serve: directories, path lookup, creation and removal are not modelled; removing a directory leaves its files' blocks allocated. Sizes are unbounded, `off_t` has 31 bits.
- Files.FileSystem.FileBlockWalk: with alloc, asked only for blocks below the size of the file, for the same reason.
- Files.FileSystem.AllocBlock: bitmap writes to the disk are in `BitmapDisk` and in the journal model.
- BlockCache.Cache.LoadBlock: panics for block 0, blocks beyond the disk and free blocks are its precondition.
- Journal.Server.AddHandle: the append path; the merging of small writes into an earlier handle is in `Handles`, apart from blocks and crashes. Of a handle's contents only the stamped number is interpreted; after a panic nothing more is written.
- Handles.AddHandle: offsets and sizes are unbounded, the source has 32 bits for both.
- Journal.Server.AllocBlock: disks of up to 32768 blocks, those whose bitmap bits reach the disk and lie outside the journal.
- Journal.Server.FlushBlock: a block just read in counts as clean, while the read marks it dirty; the writes this leaves out put on the disk what is there already.
- Journal.Server.Serve: replay after a reboot is not modelled; the journal starts cleared. File work during a request is any sequence of taking, filling, giving back and flushing blocks of files.
- Pbuf.Buffers.Alloc: only PBUF_POOL buffers; the other types differ in the allocator behind them. Payload starts as zeros here and as whatever memory holds in the source.
- Pbuf.Buffers.Cat: lengths and counts are unbounded; the source has 16 bits for both. A join that closes a circle is excluded.
- Pbuf.Buffers.Dechain: chains of up to 256 buffers, because `pbuf_free` counts in eight bits.
- Pbuf.Buffers.Copy: buffers of both packets are not empty and not shared between them.
- Pbuf.Buffers.Realloc: a link is cleared before the tail behind it is released, in the source just after; `mem_realloc` of the last buffer is not part of it.
- Timeouts.Thread.Fetch: the clock is what the waits observe; a wait whose milliseconds wrap at 32 bits is modelled, the clock itself is not.
- PipeBuffer.Fifo: positions are unbounded, `off_t` has 31 bits; one reader and one writer; whether the other side is gone is taken as _pipeisclosed answers it, which is in `PipeEnd`.
- PipeEnd.RunKeeps: `fork` and `spawn`, which copy descriptors in another order, are not among the steps, and `dup` goes to descriptor numbers.
- Sched.Yield: the priority branch is not modelled; between two yields environments become runnable or not in any way, except that a destroyed one is not runnable at the yield this leads to.
- FreeList.List.Remove: not used by `Kernel`, whose lists are sequences.
- DHCP, DNS, TCP, sockets, shell, user programs, `user_mem_check`, `lib/malloc.c`: not modelled.
