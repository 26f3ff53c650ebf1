# xv6-plus in Dafny

A model of the hard parts of the xv6-plus kernel, and of two of its user-level
routines, with proofs of what they are for.

- **Write-ahead log and buffer cache** (`RedoLog`, `LogSystem`, `LogRuns`, `LogCode`,
  `BufferCache`).
  `RedoLog` is recovery on a bare disk. `LogSystem` lets any number of operations,
  readers, evictions, commits, crashes and recoveries interleave step by step and proves
  crash atomicity and group commit for every run; `LogRuns` says what each step achieves, and
  proves durability of what was logged and that a commit ends. `LogCode` and `BufferCache` are the
  loops and the buffer list themselves; they record every disk state they pass through.
- **Buddy allocator** (`BuddyTree`, `RunLists`, `BuddyAllocator`, `BuddyMemory`). The free
  blocks are nodes of a binary tree; a canonical set of them is unique for its pages, which
  gives the round trip. The code works on `page_state` and doubly linked lists.
  `BuddyMemory` restates it on the set of free pages, as the page tables use it, and
  `PageSupply` counts what that leaves free.
- **Page tables with 2 MB leaves** (`PageTable`, `AddressSpace`, `UserMap`, `UserUnmap`,
  `UserFree`, `PageSupply`, `CopyCost`, `UserCopy`, `GrowMemory`, `ProcessMemory`). A
  three-level Sv39 table (section
  4.4 of the RISC-V Privileged Architecture, version 20211203) refines one flat map from
  virtual page to contents and permissions; split, collapse, map, unmap, copy, grow and free are stated on that map
  and on who owns which physical page. `ProcessMemory` adds the size of a process and
  keeps everything mapped below it, so that all its pages can be given back.
- **Inodes** (`InodeModel`, `InodeTruncate`, `InodeCode`, `FileWrite`). Bitmap, direct
  and indirect blocks implement one byte sequence per file.
- **Object allocators** (`FreeList`, `UserHeap`, `UserMalloc`; `SlabModel`, `SlabCache`).
  The user heap is that of section 8.7 of Kernighan and Ritchie, *The C Programming
  Language*, second edition.
- **Sleep and wakeup** (`ProcModel`, `ProcInvariant`, `ProcSteps`, `SleepWakeup`,
  `ProcReturns`, `ProcProgress`). Every
  lock operation, assignment and context switch is a step; the invariant is inductive
  over all of them. On top of it, over every run: what each call has achieved when it
  returns, and that it returns within a bound of its own steps.
- **Pipes** (`Pipe`) and the **grep matcher** (`Grep`).

Code that updates things in place is a class or a method with loops, proved against
functions and predicates on values; protocols are state machines. A panic is a result or
a precondition: where a caller must never reach it, the proof is that the precondition
holds.

## Assumptions

- A disk block is written atomically; the disk, the locks and the context switch do what
  they say. User copies are all or nothing, and may fail at any point.
- The disk the machine boots with has a well-formed log header, exact block ownership and
  no holes in its files.
- Exhausting the buffers ("no buffers") stops the machine; it is not claimed unreachable.
- A freed heap, slab or buddy block is one the caller owns, except where a contract says
  what happens otherwise. The header of a live user block is not overwritten.
- sbrk hands out memory above everything it handed out before.

## What the code does not do

- The double-free test of the buddy allocator sees only a block that begins at the freed
  page (`BuddyAllocator.Buddy.DoubleFreeTest` says exactly when it fires); every other page
  of a free block, freed again, passes it (`BuddyAllocator.Buddy.DoubleFreeMissed`).
- `malloc` of more than 0x7FFFFFE0 bytes that no free block has room for asks `sbrk`, which
  takes an int, for another amount than it wants, such as a negative one
  (`UserMalloc.AskIsExact`, `UserMalloc.HugeRequestShrinks`). `UserMalloc.Heap.Malloc` says
  that this is exactly when; for every other request all properties hold.
- `piperead` loses a byte when copying it to the caller fails; `Pipe.Pipe.Read` says exactly
  when that happens.
- `kmem_cache_free` of an address inside a live object frees that object
  (`SlabCache.KmemCache.Free`), and the fill of a whole object's length from that address
  also overwrites the start of the next object (kernel/slab.c:57). It keeps up to two
  empty slabs, although the comment at kernel/slab.c:195 speaks of freeing from the second
  on.
- `uvmunmap` panics when it must split a huge leaf and fewer than 514 pages are free at
  that moment. `UserUnmap.Unmap` gives the exact condition before the call: 514 free pages
  if the start of the range cuts a huge leaf; and, if its end cuts another one, 514 out of
  the free pages and the mapped pages of the range before that leaf (when they are freed),
  less the one page that the first split costs (`UserUnmap.CanUnmap`). Below MAXVA a range
  that cuts nothing always succeeds, and so does any range with 515 pages free
  (`UserUnmap.EnoughToUnmap`); `UserUnmap.UnmapCanPanic` is an input that fails.
- `sys_sbrk` can grow a process lazily past MAXVA; `uvmfree` then panics
  (`ProcessMemory.Process.Release` says exactly when), and so does a page fault there
  (`ProcessMemory.Process.Vmfault`). Within a page of 2^64 PGROUNDUP of the size wraps to 0
  (`UserFree.RoundsUp`).

## Model

| member | source | states |
|---|---|---|
| RedoLog.EncodeHead | kernel/log.c:104-115 | the header block decodes to exactly the block numbers that were encoded |
| RedoLog.InstalledAt | kernel/log.c:67-84 | after k installs a home block holds the log slot of the last of the first k entries naming it, and its old contents if none does |
| RedoLog.CrashDuringRecovery | kernel/log.c:118-124 | recovery stopped after any number of home writes and started afresh ends with the same home blocks |
| RedoLog.CrashOnce | kernel/log.c:118-124 | the same for a stop at any write of recovery, the clearing of the header included |
| RedoLog.AnyNumberOfCrashes | kernel/log.c:66-124 | any number of crashes inside recovery, anywhere, change nothing about the home blocks it ends with |
| RedoLog.RecoveredIsCommitted | kernel/log.c:118-124 | recovery of a disk whose log or home blocks hold the committed contents yields exactly those contents |
| RedoLog.InstallRecoverable | kernel/log.c:67-84 | installing any entry, once more or for the first time, keeps the disk recoverable |
| LogCode.InstalledViewAt | kernel/log.c:67-84 | what install_trans does to one cached block: the data of its slot, one reference less, or nothing |
| LogCode.Log.FillHead | kernel/log.c:109-112 | the copying loop of write_head produces the encoding of the in-memory header |
| LogCode.Log.WriteHead | kernel/log.c:104-115 | one disk write, of the header block; no other block on disk or in the cache changes |
| LogCode.Log.CopyToSlot | kernel/log.c:185-189 | the log slot on disk gets the latest cached contents of its block |
| LogCode.Log.LogOne | kernel/log.c:184-191 | a turn of write_log writes one slot and leaves no buffer held |
| LogCode.Log.WriteLog | kernel/log.c:180-192 | slot i holds the latest contents of the i-th logged block; only log slots are written on the way |
| LogCode.Log.WriteHome | kernel/log.c:75-78 | the home block on disk gets the contents of its log slot |
| LogCode.Log.InstallOne | kernel/log.c:71-83 | a turn of install_trans writes one home block and, outside recovery, drops exactly one pin |
| LogCode.Log.InstallTrans | kernel/log.c:67-84 | the disk becomes the installed disk through exactly its intermediate stages; each entry loses one reference outside recovery |
| LogCode.Log.ReadHead | kernel/log.c:88-98 | the in-memory header becomes the one on disk, and nothing else changes |
| LogCode.Log.LogAndHead | kernel/log.c:197-199 | every intermediate disk recovers to the old contents, and to the new ones from the header write on |
| LogCode.TraceRecoverable | kernel/log.c:67-84 | every stage of installing keeps the disk recoverable to the new contents |
| LogCode.HeaderCommits | kernel/log.c:104-115 | with the slots written, the header write makes the new contents the recoverable ones |
| LogCode.Log.InstallAll | kernel/log.c:200 | after commit's install_trans the new contents are at home, and a crash at any of its writes recovers to them |
| LogCode.Log.InstallAndClear | kernel/log.c:200-202 | clearing the header afterwards leaves the new contents recoverable and at home |
| LogCode.Log.Commit | kernel/log.c:195-204 | crash atomicity of commit: after every disk write recovery gives exactly the old contents, or exactly the new ones from write number n (the header) on; at the end pins are dropped once per logged block; it stops early only when every buffer is in use |
| LogCode.CommittedView | kernel/log.c:195-204 | a commit shows every reader the contents seen before it, with the pin of each logged block gone |
| LogCode.Log.Recover | kernel/log.c:118-124 | every intermediate disk is a stage of one recovery, and the final disk is the recovered one; it stops early only when every buffer is in use |
| LogCode.Log.LogWrite | kernel/log.c:216-236 | absorbed if the block is logged already, otherwise appended and pinned once; panics exactly when the log is full or no operation is open; each logged block stays in the header once and pinned, and a block only its holder had changed is logged now |
| LogCode.Log.EndOp | kernel/log.c:148-176 | the last operation out commits: after every disk write recovery gives what was on disk before or, from the header write on, all that readers saw at the call; it ends ready for the next transaction, with one pin fewer per logged block |
| LogCode.Log.WriteBlock | kernel/log.c:210-214 | bread, change, log_write and brelse make readers see the new block and keep every condition commit needs |
| LogCode.Log.Operation | kernel/log.c:128-236 | an operation of up to MAXOPBLOCKS writes, from begin_op to end_op, is atomic at every disk write, and meets none of the panics of log.c |
| LogSystem.BeginOpAdmission | kernel/log.c:128-143 | begin_op keeps the admission invariant: entries plus unspent budgets never exceed LOGBLOCKS |
| LogSystem.EndOpAdmission | kernel/log.c:148-165 | end_op keeps it, commits exactly when the last operation leaves, and never meets its panic |
| LogSystem.RoomToLog | kernel/log.c:220-224 | an operation that has appended fewer than MAXOPBLOCKS entries always finds room, so log_write does not panic |
| LogSystem.LogWriteAdmission | kernel/log.c:216-236 | log_write keeps the admission invariant, absorbed or appended |
| LogSystem.LogWritePins | kernel/log.c:226-234 | a block is pinned exactly when it is in the in-memory header |
| LogSystem.BeginOpKeeps | kernel/log.c:128-143 | begin_op keeps the whole invariant of log, cache and disk |
| LogSystem.LogWriteKeeps | kernel/log.c:216-236 | log_write keeps the whole invariant |
| LogRuns.LogWriteMeans | kernel/log.c:216-236 | after log_write the block is in the header and pinned, by one more reference exactly if it was not logged before; its buffer is clean with the same contents; every other entry and buffer is as it was; no panic |
| LogRuns.BeginOpMeans | kernel/log.c:128-143 | an admitted operation is open, and even if every open operation spends its whole budget the log does not overflow |
| LogRuns.ReadMeans | kernel/bio.c:59-137 | bget gives the caller a reference, the lock, then the contents readers see; brelse takes both back |
| LogRuns.ModifyMeans | kernel/log.c:206-215 | a modification is what readers see next, and the writer can neither release the buffer nor end its operation before it has logged it |
| LogRuns.EndOpMeans | kernel/log.c:148-176 | the last operation out starts the commit, and no other; the header, the cache and the disk are as they were |
| LogRuns.StaysLogged | kernel/log.c:180-204 | short of a crash, a logged block stays in the header until the header is written |
| LogRuns.Durable | kernel/log.c:195-236 | over every run: when the system is next at rest without a crash, a header write since then has committed a logged block with exactly what readers saw of it at that write |
| LogRuns.WorkProgress | kernel/log.c:180-204 | every step of a commit or a recovery brings it nearer its end |
| LogSystem.EndOpKeeps | kernel/log.c:148-176 | end_op keeps the whole invariant |
| LogSystem.GetKeeps | kernel/bio.c:59-89 | bget, on a hit or with a recycled buffer, keeps the whole invariant |
| LogSystem.FillKeeps | kernel/bio.c:93-103 | reading a block in keeps it |
| LogSystem.ReleaseKeeps | kernel/bio.c:117-137 | releasing a buffer keeps it |
| LogSystem.EvictedWasClean | kernel/bio.c:75-86 | a buffer that bget may recycle holds nothing the disk does not |
| LogSystem.CopyToLogKeeps | kernel/log.c:184-187 | copying a block into its log buffer keeps the invariant: the block is still cached, with its latest contents |
| LogSystem.WriteLogKeeps | kernel/log.c:188 | the write of a log slot keeps it: no home block changes before the header is written |
| LogSystem.CommitPoint | kernel/log.c:104-115 | the header write makes exactly the contents that readers see at that moment the recoverable ones |
| LogSystem.WriteHeadKeeps | kernel/log.c:104-115 | the header write keeps the invariant, with those contents now the committed ones |
| LogSystem.WriteHomeKeeps | kernel/log.c:78 | the write of a home block keeps it |
| LogSystem.UnpinKeeps | kernel/log.c:79-80 | bunpin after the home write keeps it: the pin dropped is the one log_write added |
| LogSystem.WriteZeroKeeps | kernel/log.c:201-202 | clearing the header on disk keeps it |
| LogSystem.FinishKeeps | kernel/log.c:167-175 | the end of a commit keeps it, with an empty header and no operation open |
| LogSystem.CrashKeeps | kernel/log.c:118-124 | a crash at any point, into recovery, keeps it |
| LogSystem.ReadHeadKeeps | kernel/log.c:88-98 | reading the header in recovery keeps it |
| LogSystem.StepKeeps | kernel/log.c:66-236 | every step of every thread, commit, crash or recovery keeps the invariant |
| LogSystem.BootInv | kernel/log.c:54-63 | the invariant holds when the machine boots from any disk with a well-formed log header naming distinct blocks |
| LogSystem.RunKeeps | kernel/log.c:66-236 | the invariant holds in every state of every run |
| LogSystem.CrashSafety | kernel/log.c:118-204 | at every moment of every run, recovery from the disk alone gives exactly the last committed contents, and no log panic has occurred |
| LogSystem.GroupCommit | kernel/log.c:148-204 | the committed contents are always what readers saw at one moment with no operation open, never half an operation |
| LogSystem.CommittedStep | kernel/log.c:195-204 | only the header write changes the committed contents |
| LogSystem.Transparent | kernel/bio.c:58-151 | caching, eviction, logging, committing and installing change nothing a reader sees |
| LogSystem.Quiescent | kernel/log.c:148-204 | with no operation open and no commit under way cache, disk and committed contents agree and no pin is left |
| BufferCache.Bcache.constructor | kernel/bio.c:37-53 | all buffers unused, the list a permutation of them |
| BufferCache.Bcache.Bget | kernel/bio.c:59-89 | the cached buffer if there is one, else the unused one that was released longest ago, nearest the tail of the list; fails exactly when there is neither; no block ever gets two buffers |
| BufferCache.Bcache.Bread | kernel/bio.c:93-103 | a locked buffer with what any reader of the block would see |
| BufferCache.Bcache.Bwrite | kernel/bio.c:107-112 | one atomic block write that readers do not notice |
| BufferCache.Bcache.Brelse | kernel/bio.c:117-137 | one reference less and unlocked; the list stays in the order of the last releases: a buffer that becomes unused goes to the front, and otherwise the list is untouched |
| BufferCache.Bcache.ToFront | kernel/bio.c:126-134 | one buffer moves to the front of the list and the others keep their order |
| BufferCache.FrontIsNewest | kernel/bio.c:126-134 | moving the buffer just released to the front keeps the list in the order of the last releases |
| BufferCache.Bcache.Bpin | kernel/bio.c:140-144 | one reference more, nothing else |
| BufferCache.Bcache.Bunpin | kernel/bio.c:147-151 | one reference less, nothing else |
| BufferCache.Bcache.Unreferenced | kernel/bio.c:75-86 | a block without references has no contents newer than the disk's |
| BuddyTree.AlignedIffHead | kernel/kalloc.c:113-114 | a page number is a multiple of 2^k exactly when it begins a block of order k |
| BuddyTree.XorIsBuddy | kernel/kalloc.c:120-122 | the exclusive-or of the offset with the block size is the offset of the other half of the parent, for every order |
| BuddyTree.RunInsideOne | kernel/kalloc.c:119-135 | in a canonical free set an aligned free run lies inside one free block |
| BuddyTree.FreeIffMaximal | kernel/kalloc.c:119-135 | the free blocks are exactly the maximal aligned free runs |
| BuddyTree.CanonicalUnique | kernel/kalloc.c:109-140 | the free blocks are determined by the free pages |
| BuddyTree.MergeStep | kernel/kalloc.c:119-135 | one merge keeps the set canonical and loses no page |
| BuddyTree.SplitStep | kernel/kalloc.c:153-159 | one split keeps it canonical and loses no page |
| BuddyTree.FreeKeeps | kernel/kalloc.c:109-140 | freeing keeps the set canonical and adds exactly the pages of the block |
| BuddyTree.SplitKeeps | kernel/kalloc.c:153-159 | splitting down to an order keeps it canonical and loses no page |
| BuddyTree.AllocKeeps | kernel/kalloc.c:142-164 | allocation takes exactly the pages of the block returned out of the free set |
| BuddyTree.AllocFreeRoundTrip | kernel/kalloc.c:109-164 | allocating and freeing gives back the very same set of free blocks |
| BuddyTree.AllocIffRun | kernel/kalloc.c:142-164 | a block of order k or more is free if and only if some aligned run of 2^k pages is |
| BuddyTree.RunKeeps | kernel/kalloc.c:66-198 | over every run of allocations and frees no page is lost, duplicated or in two blocks |
| BuddyTree.HistoryIndependent | kernel/kalloc.c:109-164 | two runs that leave the same blocks live leave the same free blocks |
| RunLists.Lists.Insert | kernel/kalloc.c:88-96 | the links spell the list with the block at its front; the other lists are untouched |
| RunLists.Lists.Remove | kernel/kalloc.c:98-107 | the links spell the list without the block, wherever it was |
| BuddyAllocator.AgreeRemove | kernel/kalloc.c:129-130 | page states and lists still describe one set of blocks after a removal |
| BuddyAllocator.AgreeInsert | kernel/kalloc.c:138-139 | and after an insertion |
| BuddyAllocator.Buddy.BuddyPage | kernel/kalloc.c:120-127 | the computed address is the buddy's page, and its page state tells whether the buddy is a free block |
| BuddyAllocator.Buddy.TryMerge | kernel/kalloc.c:119-135 | merges if and only if the buddy is free, into the parent block |
| BuddyAllocator.Buddy.FreeLocked | kernel/kalloc.c:109-140 | panics exactly on a bad order, a misaligned or an unmanaged page, and on a page at which a free block begins; otherwise the canonical free set with the block's pages added |
| BuddyAllocator.Buddy.SplitDown | kernel/kalloc.c:153-159 | the loop computes the splitting of the block in hand |
| BuddyAllocator.Buddy.AllocLocked | kernel/kalloc.c:142-164 | fails exactly when no aligned run of 2^order pages is free; otherwise takes exactly the pages of one, out of a smallest block that has it, and freeing it would restore the free set |
| BuddyAllocator.Buddy.LargestFitting | kernel/kalloc.c:74-80 | the largest order that is aligned and fits |
| BuddyAllocator.Buddy.AddRange | kernel/kalloc.c:65-86 | exactly the pages of the range become free |
| BuddyAllocator.Kinit | kernel/kalloc.c:52-63 | exactly the whole pages from the end of the kernel to PHYSTOP are free |
| BuddyAllocator.Buddy.Kfree | kernel/kalloc.c:166-174 | accepts exactly the aligned addresses of managed pages that pass the double-free test, and frees that page |
| BuddyAllocator.Buddy.KallocOrder | kernel/kalloc.c:176-188 | 0 exactly when no aligned run of the order is free; otherwise an aligned address whose block can be freed back |
| BuddyAllocator.Buddy.DoubleFreeTest | kernel/kalloc.c:117-118 | the double-free test fires if and only if a free block begins at that very page |
| BuddyAllocator.Buddy.DoubleFreeMissed | kernel/kalloc.c:117-118 | every page of every free block but its first, freed again, passes the test |
| BuddyMemory.SmallIff | kernel/kalloc.c:176-181 | some page is free if and only if a block of one page can be allocated |
| BuddyMemory.HugeIff | kernel/kalloc.c:183-188 | an aligned run of 512 pages is free if and only if a huge block can be allocated |
| BuddyMemory.BestFitSpares | kernel/kalloc.c:147-162 | a page from a smallest free block lies in a free huge page only if every free page does |
| BuddyMemory.Kalloc | kernel/kalloc.c:176-181 | on the set of free pages: one page is taken, or none exactly when none is free, and a free huge page is broken up only if nothing else is free; the contract that the page tables build on |
| BuddyMemory.KallocHuge | kernel/kalloc.c:183-188 | an aligned free run of 512 pages is taken, or nothing exactly when there is none |
| BuddyMemory.Give | kernel/kalloc.c:166-198 | freeing an owned block, small or huge, frees exactly its pages |
| PageTable.SplitSame | kernel/vm.c:351-394 | replacing a huge leaf by 512 small ones with copied pages shows the process the same space |
| PageTable.SplitOwns | kernel/vm.c:351-394 | which pages the table owns after a split |
| PageTable.CollapseSame | kernel/vm.c:597-648 | replacing 512 small leaves by a huge one with copied pages shows the process the same space |
| PageTable.CollapseOwns | kernel/vm.c:597-648 | which pages the table owns after a collapse |
| PageTable.FreeWrites | kernel/vm.c:242-278 | writing to free pages is invisible to every address space |
| PageTable.OtherSpace | kernel/vm.c:402-444 | an operation that loses no page and touches no foreign page leaves a separate address space as it was |
| AddressSpace.Space.TakeForSplit | kernel/vm.c:361-393 | the 514 pages of a split, with the copies made, or none at all and the free set unchanged |
| AddressSpace.Space.Split | kernel/vm.c:351-394 | succeeds exactly on a huge leaf with at least 514 free pages; contents and permissions are unchanged; costs one page, or nothing on failure |
| AddressSpace.Space.UniformFlags | kernel/vm.c:615-628 | the checking loop finds exactly whether all 512 pages are mapped with equal flags |
| AddressSpace.Space.Collapse | kernel/vm.c:597-648 | succeeds exactly when the region is below sz, uniform and a free huge page exists; contents and permissions are unchanged, and so is everybody else's memory; frees one page, or changes nothing |
| UserMap.EnsureTables | kernel/vm.c:103-135 | missing tables are created and the space does not change; it succeeds if and only if there are as many free pages as tables missing, and takes exactly those |
| UserMap.BeyondMaxva | kernel/vm.c:104-105 | nothing is mapped at or beyond MAXVA |
| UserMap.MapPage | kernel/vm.c:177-221 | panics exactly beyond MAXVA and on a mapped page; otherwise changes exactly what that page shows and takes exactly the tables it lacks, or changes nothing when there are too few pages for them |
| UserMap.MapHuge | kernel/vm.c:177-221 | the same for a 2 MB leaf: panics exactly beyond MAXVA and where the region has an entry, and takes exactly the table it lacks |
| UserUnmap.UnmapSmall | kernel/vm.c:266-276 | one small leaf goes, its page is freed or, without do_free, kept aside; nothing else changes |
| UserUnmap.UnmapHuge | kernel/vm.c:266-276 | one huge leaf goes, its 512 pages are freed or kept aside; nothing else changes |
| UserUnmap.UnmapStep | kernel/vm.c:248-277 | one turn of uvmunmap: progress by a page or a region, or a split, with the number of free pages after it; it panics exactly beyond MAXVA or for a split without 514 free pages, and then nothing has changed |
| UserUnmap.StuckIsHopeless | kernel/vm.c:260-264 | a turn of the loop that panics means that the condition on the state before the call does not hold |
| UserUnmap.EndIsFine | kernel/vm.c:242-278 | a loop that ends means that it holds, and gives the number of pages free at the end |
| UserUnmap.Unmap | kernel/vm.c:242-278 | succeeds if and only if, before the call, the range ends by MAXVA, 514 pages are free if its start cuts a huge leaf, and 514 will be free for another leaf that its end cuts; then exactly the range loses its mapping, every page in it is freed once (or kept aside), all else stays, cut huge leaves included, and the free pages are counted exactly |
| UserUnmap.EnoughToUnmap | kernel/vm.c:260-264 | with 515 pages free, or with no huge leaf cut, uvmunmap below MAXVA always succeeds |
| UserUnmap.UnmapCanPanic | kernel/vm.c:260-264 | unmapping the first page of a huge leaf with no page free panics |
| UserFree.RoundsUp | kernel/riscv.h:321 | PGROUNDUP in 64 bits gives the pages of a size, except that it wraps to 0 within a page of 2^64 |
| UserFree.FreeLevel0 | kernel/vm.c:326-340 | freewalk on a level-0 table frees exactly that table |
| UserFree.FreeLevel1 | kernel/vm.c:326-340 | freewalk on a level-1 table frees it and its level-0 tables |
| UserFree.Freewalk | kernel/vm.c:326-340 | panics exactly when a leaf is left; otherwise every table page is freed |
| UserFree.LeavesBelowIff | kernel/vm.c:344-348 | all leaves lie below page n if and only if the flat map is empty from n on |
| UserFree.AllUnmapped | kernel/vm.c:344-348 | unmapping the pages below n leaves no leaf if and only if all leaves were below n |
| UserFree.Uvmfree | kernel/vm.c:344-348 | succeeds if and only if all leaves lie below the size and the size within MAXVA; then every user page and every page-table page goes back, each once |
| PageSupply.RunTaken | kernel/kalloc.c:183-188 | kalloc_huge uses up exactly one free huge page and 512 pages |
| PageSupply.RunsFit | kernel/kalloc.c:142-164 | there are at least 512 free pages per free huge page, and exactly that many if every free page lies in one |
| PageSupply.DrawnOne | kernel/kalloc.c:176-181 | a call of kalloc leaves as many free huge pages as there can be with one page less |
| PageSupply.DrawnTwice | kernel/kalloc.c:176-181 | so do any number of calls, in terms of the counts before the first and after the last |
| CopyCost.CostIs | kernel/vm.c:405-438 | the tables that the child lacks when uvmcopy reaches a page are those that no earlier page of the parent needed and the child did not start with |
| CopyCost.PaidSmall | kernel/vm.c:429-437 | copying a small page keeps the account of pages, tables and free huge pages, and failing to means the whole copy cannot be paid |
| CopyCost.PaidHuge | kernel/vm.c:416-427 | the same for a huge page |
| CopyCost.PaidAll | kernel/vm.c:405-438 | a copy that got to the end could be paid |
| UserCopy.CopySmall | kernel/vm.c:429-437 | a small page is copied into a page of the child's own, or there is no memory and nothing changes; no panic; it takes exactly that page and the missing tables, and fails only if there are fewer |
| UserCopy.CopyHuge | kernel/vm.c:416-427 | a huge page is copied into a huge page of the child's own, or there is no memory and nothing changes; no panic; it takes exactly that and a missing table, and fails only if no huge page is free or the table cannot be had |
| UserCopy.CopyStep | kernel/vm.c:405-438 | one turn of uvmcopy: the child shows what the parent shows on that page or region; never a remap, and the walk panic exactly beyond MAXVA |
| UserCopy.Uvmcopy | kernel/vm.c:402-444 | below the size (and to the end of a huge leaf it cuts) the child shows exactly what the parent shows, in disjoint pages; on failure none of it is mapped; the parent is untouched, no page is lost, no remap panic; memory runs out if and only if fewer pages are free than the parent's mapped pages and the tables the child lacks for them, or fewer huge pages than the parent has huge leaves; otherwise it panics exactly if the size passes MAXVA |
| UserCopy.CopyUndone | kernel/vm.c:441-443 | the failure path unmaps exactly what was copied |
| GrowMemory.GrowOne | kernel/vm.c:290-302 | one zeroed page is mapped if and only if it is neither mapped nor beyond MAXVA and there are pages for it and the tables it lacks; nothing changes without memory; a blocked page panics exactly if a page could be taken |
| GrowMemory.CostHere | kernel/vm.c:111-133 | with the range before page a mapped, page a takes one page and exactly the tables that no page before it in the range needed |
| GrowMemory.TurnDecides | kernel/vm.c:290-302 | how one turn ends decides the outcome of the whole range on the state before the call |
| GrowMemory.Uvmalloc | kernel/vm.c:283-305 | succeeds if and only if no page of the range is mapped or beyond MAXVA and the free pages cover the range and its missing tables, and then takes exactly those; panics if and only if memory lasts up to such a page and one page longer; otherwise result 0 and the space as it was |
| GrowMemory.Undo | kernel/vm.c:292-301 | the failure path takes away exactly what was added |
| GrowMemory.Uvmdealloc | kernel/vm.c:312-322 | exactly the pages that only the larger size needs are unmapped, nothing when the new size is not smaller; it panics exactly when uvmunmap must; leaves stay below the size |
| GrowMemory.GrowThenShrink | kernel/vm.c:283-322 | growing and shrinking back changes nothing the process can see |
| ProcessMemory.ShrinkIff | kernel/proc.c:236-238 | for a process whose leaves lie below its size, shrinking panics exactly when the new end cuts a huge leaf and fewer than 514 pages are free, or the old size had passed MAXVA |
| ProcessMemory.OnlyMaxvaBlocks | kernel/proc.c:232-235 | nothing but MAXVA is in the way of a growing process whose leaves lie below its size |
| ProcessMemory.Process.Growproc | kernel/proc.c:227-241 | the new size in 64 bits, with zeroed pages added or the pages beyond it removed, or -1 and nothing changed; when each of success, -1 and a panic happens is exact, on the state before the call; nothing stays mapped beyond the size |
| ProcessMemory.Process.SbrkLazy | kernel/sysproc.c:46-57 | a lazy sbrk grows the size alone, and nothing is mapped beyond it |
| ProcessMemory.Process.Vmfault | kernel/vm.c:565-595 | panics exactly at or beyond MAXVA below the size; a zeroed page exactly if the address is below the size, unmapped, and there are pages for it and its tables; otherwise nothing changes |
| ProcessMemory.Process.TryCollapse | kernel/vm.c:597-648 | collapsing keeps what the process sees and its leaves below its size, and leaves one huge leaf and one more free page |
| ProcessMemory.Process.Fork | kernel/proc.c:258-264 | the child sees at every address what the parent sees, in pages of its own, or it stays empty: if and only if fewer pages are free than the copy takes, tables included, or fewer huge pages than the parent has huge leaves; with memory, a size beyond MAXVA is a panic; no page is lost |
| ProcessMemory.Process.Release | kernel/proc.c:208 | a process whose leaves lie below its size gives back every page it owned, each once, if and only if its size is within MAXVA (or, where rounding the size wraps, it is empty) |
| InodeModel.PutWord | kernel/fs.c:430-438 | storing a 32-bit address in a block of bytes: it reads back, and no other address changes |
| InodeModel.ClaimedKeeps | kernel/fs.c:406-444 | recording a free block at an empty place keeps ownership exact and changes no byte of any file |
| InodeModel.DataPlaces | kernel/fs.c:543-550 | writing a data block of one file changes no block assignment and no byte elsewhere |
| InodeModel.SameContents | kernel/fs.c:406-444 | claiming blocks changes no file's contents |
| InodeModel.LiveIsUsed | kernel/fs.c:93-106 | a block that a file owns is marked, so freeing it does not panic |
| InodeModel.FreedPlace | kernel/fs.c:93-106 | clearing the bit of a block takes exactly that block out of the owned ones |
| InodeCode.FileSystem.Balloc | kernel/fs.c:67-89 | the lowest unmarked block, marked and zeroed; 0 exactly when all are marked |
| InodeCode.FileSystem.ClaimAddr | kernel/fs.c:411-429 | a direct address, or the indirect block's, is found or claimed; nothing else changes |
| InodeCode.FileSystem.ClaimVia | kernel/fs.c:430-440 | the same for an address in the indirect block |
| InodeCode.FileSystem.ClaimBoth | kernel/fs.c:422-440 | the indirect block and then its entry, each claimed if missing |
| InodeCode.FileSystem.Bmap | kernel/fs.c:406-444 | the block of a file block, claimed if missing; no file's contents change; an existing one is returned with no change at all; every block and bitmap bit changed is logged, and at most one bitmap block per block claimed |
| InodeCode.FileSystem.WriteTurn | kernel/fs.c:539-551 | one turn of writei writes exactly its chunk and logs every block and bitmap bit it changes |
| InodeCode.FileSystem.WriteLoop | kernel/fs.c:539-551 | the bytes written so far replace exactly their range; every block and bitmap bit changed is logged, and what is logged is bounded by the turns made |
| InodeCode.RecordedTwice | kernel/fs.c:406-562 | two pieces of work that log all they change, one after the other, do so together |
| InodeCode.WrittenIsReplaced | kernel/fs.c:529-562 | the written state, with the size grown, is the old contents overwritten at the offset, and every other file unchanged |
| InodeCode.FileSystem.Writei | kernel/fs.c:529-562 | refused exactly when the offset is past the end or the end past the maximum; otherwise exactly bytes off to off + r are replaced, on short writes too, every other file keeps its contents, block ownership stays exact and no hole appears; every block, bitmap bit and inode that changed is in a logged block |
| InodeCode.HasBlock | kernel/fs.c:505-508 | no holes: every byte below the size has a block |
| InodeCode.FileSystem.ReadTurn | kernel/fs.c:505-517 | one turn of readi delivers the bytes of the file and changes nothing |
| InodeCode.FileSystem.Readi | kernel/fs.c:495-519 | the bytes of the file from the offset, clamped to its size; -1 exactly when a copy fails; bmap never allocates and nothing changes |
| InodeCode.FileSystem.WriteThenRead | kernel/fs.c:494-562 | a read of what was just written returns it |
| InodeTruncate.DirectFreed | kernel/fs.c:455-460 | freeing and clearing a direct address keeps ownership exact |
| InodeTruncate.ViaFreed | kernel/fs.c:465-468 | the block of an entry of the indirect block is marked before it is freed |
| InodeTruncate.IndirectFreed | kernel/fs.c:470-471 | freeing the indirect block and its address makes ownership exact again |
| InodeTruncate.FreesExactlyOwned | kernel/fs.c:449-476 | the bitmap loses exactly the blocks the inode owned |
| InodeTruncate.EmptiedIsValid | kernel/fs.c:449-476 | an emptied inode has no contents and every other file keeps its own |
| InodeCode.FileSystem.FreeDirects | kernel/fs.c:455-460 | all direct blocks are freed and their addresses cleared |
| InodeCode.FileSystem.FreeVias | kernel/fs.c:462-468 | all blocks of the indirect block are freed |
| InodeCode.FileSystem.Itrunc | kernel/fs.c:449-476 | no bfree panics, exactly the blocks of the inode are freed, the file is empty and all others are unchanged; every bitmap bit and inode that changed is in a logged block |
| FileWrite.ChunkFits | kernel/file.c:149-158 | a chunk of at most max bytes, at any offset, logs at most MAXOPBLOCKS blocks |
| FileWrite.File.WriteChunk | kernel/file.c:160-165 | one transaction: all that it changes is logged in it; at most MAXOPBLOCKS distinct blocks are logged, and fewer than that before its last log_write, so that none finds the log full, for every offset and bitmap layout; the offset moves by the bytes written |
| FileWrite.ReplacedMore | kernel/file.c:155-172 | two writes one after the other are one write of both pieces |
| FileWrite.File.Filewrite | kernel/file.c:135-179 | the file has exactly the bytes the offset moved over; the result is n if and only if that is all of them; -1 only for an offset past the end, a file too large, a full disk or a copy that fails in one of its chunks; every transaction keeps to its budget and logs all it changes, and only the last chunk is short |
| FreeList.SparseUnique | user/umalloc.c:25-44 | an address-sorted list without touching blocks is determined by the bytes it covers |
| FreeList.FreedIsFreeList | user/umalloc.c:33-42 | after the merges of free the list is sorted, with no two blocks touching |
| FreeList.FreedCovers | user/umalloc.c:33-42 | it covers exactly what it covered and the freed block |
| FreeList.TakenIsFreeList | user/umalloc.c:75-83 | after malloc takes a block or its tail the list is still sorted and sparse, and apart from what was taken |
| FreeList.TakenCovers | user/umalloc.c:75-83 | it covers exactly what it covered less the block handed out |
| UserHeap.FreeListDetermined | user/umalloc.c:24-90 | the free list is a function of the memory obtained and the live blocks |
| UserHeap.FreedPartition | user/umalloc.c:25-44 | free keeps live and free blocks a partition of the memory obtained from sbrk |
| UserHeap.TakenPartition | user/umalloc.c:75-85 | so does malloc's success branch |
| UserHeap.GrownPartition | user/umalloc.c:54-59 | so does fresh memory |
| UserHeap.FreedLinked | user/umalloc.c:33-43 | the headers after free's assignments spell the new list, closed into a circle |
| UserHeap.TakenLinked | user/umalloc.c:75-83 | the same for malloc's assignments |
| UserHeap.SizesFit | user/umalloc.c:47-61 | below 64 GB no size overflows its 32-bit field |
| UserMalloc.StopsAtPlace | user/umalloc.c:30-32 | free's exit test holds exactly at the block after which the freed one belongs |
| UserMalloc.Heap.FindPlace | user/umalloc.c:30-32 | the search ends, at that block |
| UserMalloc.Heap.Merge | user/umalloc.c:33-42 | the four cases of joining produce the headers of the list with the block freed |
| UserMalloc.Heap.Free | user/umalloc.c:25-44 | the block is live no more; the list is sorted, sparse, circular and covers its bytes |
| UserMalloc.Heap.Morecore | user/umalloc.c:47-61 | 0 exactly when sbrk refuses; otherwise the break moves by the larger of 4096 units and the need, and enough fresh memory is in freep's block or the next one |
| UserMalloc.Heap.Take | user/umalloc.c:75-85 | exactly n units leave the free list for a block that was not live, and freep moves to the block before it |
| UserMalloc.Heap.Init | user/umalloc.c:70-73 | the first call builds the one-block circle |
| UserMalloc.Heap.Malloc | user/umalloc.c:64-90 | asks sbrk for another amount than it needs if and only if no free block has room and more than 0x7FFFFFE0 bytes are asked for; otherwise calls morecore at most once, exactly when no free block is large enough, for the larger of 4096 units and the need, and fails exactly when that fails; the block is new and large enough, and from the list it is the first large enough one after freep |
| UserMalloc.Heap.MallocFree | user/umalloc.c:24-90 | malloc then free restores the very same free list unless memory was added |
| UserMalloc.NeedUnits | user/umalloc.c:69 | the least number of units with room for the bytes and a header |
| UserMalloc.AskIsExact | user/umalloc.c:52-54 | the request survives the conversion to int if and only if it is below 2 GB |
| UserMalloc.RequestBelow2GB | user/umalloc.c:69 | which is so if and only if at most 0x7FFFFFE0 bytes are asked for |
| UserMalloc.ServableIff | user/umalloc.c:69-85 | malloc can meet a request, from the list or by a call of sbrk that asks for what it needs, if and only if a free block has room or at most 0x7FFFFFE0 bytes are asked for |
| UserMalloc.HugeRequestShrinks | user/umalloc.c:54 | one byte more and sbrk is asked for a negative amount |
| ProcSteps.EnterKeeps | kernel/proc.c:304-403 | entering any of the calls keeps the invariant of sleep and wakeup |
| ProcSteps.WakeKeeps | kernel/proc.c:551-563 | every turn of wakeup keeps it |
| ProcSteps.LockKeeps | kernel/sleeplock.c:21-41 | every step of acquiresleep and releasesleep keeps it |
| ProcSteps.SleepKeeps | kernel/proc.c:522-547 | every step of sleep keeps it |
| ProcSteps.WaitKeeps | kernel/proc.c:360-403 | every step of kwait keeps it |
| ProcSteps.ExitKeeps | kernel/proc.c:304-356 | every step of reparent and kexit keeps it |
| ProcSteps.ForkKeeps | kernel/proc.c:287-300 | every step of kfork's hand-over keeps it |
| ProcSteps.YieldKeeps | kernel/proc.c:477-493 | every step of yield and forkret keeps it |
| ProcSteps.OutsideKeeps | kernel/proc.c:412-449 | every step of a scheduler, and kkill, keeps it |
| SleepWakeup.StepKeepsAt | kernel/proc.c:304-563 | every step keeps the invariant at every process, lock and guard |
| SleepWakeup.StepKeeps | kernel/proc.c:304-563 | every step keeps the invariant |
| SleepWakeup.BootInv | kernel/proc.c:212-223 | it holds after boot |
| SleepWakeup.RunKeeps | kernel/proc.c:304-563 | it holds after every run |
| SleepWakeup.NoLostWakeupOnLock | kernel/sleeplock.c:21-41 | in every reachable state with the lock's spinlock free, nobody sleeps on a sleeplock that is not locked, or has released the spinlock in order to |
| SleepWakeup.NoLostWakeupInWait | kernel/proc.c:360-403 | in every reachable state with wait_lock free, no parent with a zombie child sleeps in kwait, or has released wait_lock in order to |
| SleepWakeup.MutualExclusion | kernel/sleeplock.c:21-41 | a sleeplock has at most one holder, and one exactly when it is locked |
| SleepWakeup.FreedOncePerExit | kernel/proc.c:149-168 | a slot is freed exactly once per exit, save for a zombie still waiting |
| SleepWakeup.FreedOffCpu | kernel/proc.c:370-392 | the slot freed was a zombie that had switched off its CPU and whose lock the scheduler had released |
| SleepWakeup.SchedNeverPanics | kernel/proc.c:462-467 | a caller of sched holds its own lock, no condition lock, and is not RUNNING, so three of its panics are out of reach |
| ProcReturns.StepTurn | kernel/proc.c:245-563 | no step but its own moves a process out of a call or into one (save that kfork sets up an unused slot), and a call is left only by returning |
| ProcReturns.CallsAreKept | kernel/proc.c:245-563 | over every run: a process stays in the call it made until it returns from it, and exit never returns |
| ProcReturns.AcquireReturns | kernel/sleeplock.c:21-31 | over every run: acquiresleep returns with the lock held by the caller |
| ProcReturns.ReleaseReturns | kernel/sleeplock.c:33-41 | over every run: releasesleep returns without it |
| ProcReturns.NoOrphans | kernel/proc.c:304-312 | in every reachable state the parent of a process is alive, and init always is |
| ProcReturns.WaitReturns | kernel/proc.c:368-402 | over every run: kwait ends only by freeing a zombie child, without a child, or when killed or the copy fails |
| ProcReturns.WaitSleepsForChild | kernel/proc.c:396-401 | over every run: a process that goes to sleep in kwait has a child |
| ProcReturns.ForkReturns | kernel/proc.c:289-299 | over every run: kfork returns with a runnable child of the caller in the slot it had set up |
| ProcReturns.MovesOn | kernel/proc.c:245-563 | over every run: a step in the kernel gets somewhere unless a lock it needs is taken, and an admissible call is entered |
| ProcReturns.OnlyWokenByChannel | kernel/proc.c:551-592 | only a kill, or a wakeup on the very channel, ends a sleep |
| ProcReturns.OutsideActs | kernel/proc.c:412-449 | a scheduler runs a runnable process whose lock is free, and lets go of it afterwards; a kill wakes a sleeper |
| ProcProgress.OwnStepCounts | kernel/proc.c:245-563 | a step in the middle of a call that does anything brings a bound down |
| ProcProgress.CallsRunOut | kernel/proc.c:245-563 | over every run, however interleaved: a call takes no more steps of its own than a bound linear or, for exit, quadratic in the number of processes before it returns, dies or has slept |
| ProcProgress.YieldGivesUpCpu | kernel/proc.c:477-483 | over every run: yield returns only after the process has been off its CPU |
| ProcProgress.GivingUpDoesNotSleep | kernel/proc.c:396-399 | a killed caller of kwait does not go to sleep |
| SlabModel.AssistSize | kernel/slab.c:216-231 | the smallest object size that fits, 0 exactly above 2048 |
| SlabModel.Capacity | kernel/slab.c:123 | as many objects as fit in the page, but at most 64, and at least two |
| SlabModel.AllFree | kernel/slab.c:27-33 | nr_free is the capacity exactly when every bit is set, and 0 exactly when none is |
| SlabModel.FreshOk | kernel/slab.c:27-33 | a new slab has all its objects free |
| SlabModel.WithBitOk | kernel/slab.c:41-59 | flipping a bit and counting along keeps nr_free equal to the set bits and changes one object |
| SlabModel.LiveDisjoint | kernel/slab.c:35-49 | live objects never overlap |
| SlabModel.SwappedLive | kernel/slab.c:35-60 | handing out or taking back one object changes exactly its address among the live ones |
| SlabCache.MovedOk | kernel/slab.c:86-108 | moving a slab to the list its nr_free dictates keeps the three lists exact and without repeats |
| SlabCache.SlabAlloc | kernel/slab.c:35-49 | the lowest free object; with nr_free > 0 the scan always finds one |
| SlabCache.FindIn | kernel/slab.c:144-145 | the first slab whose objects contain the address, if any |
| SlabCache.Unlink | kernel/slab.c:150-156 | the second walk removes exactly that slab |
| SlabCache.KmemCache.AllocPartial | kernel/slab.c:85-93 | one object from the first partial slab, which moves to the full list when used up |
| SlabCache.KmemCache.AllocEmpty | kernel/slab.c:94-108 | one object from the first empty slab, which leaves the empty list |
| SlabCache.KmemCache.Alloc | kernel/slab.c:82-138 | 0 exactly when no slab has room and a page is refused, with nothing changed; otherwise an address that was not live and now is; empty slabs are touched only when no partial one is there, pages are taken only for a new slab |
| SlabCache.KmemCache.FreePartial | kernel/slab.c:144-160 | the object pointed into is live no more; the slab moves to the empty list when all free |
| SlabCache.KmemCache.FileFull | kernel/slab.c:165-185 | where a slab from the full list goes |
| SlabCache.KmemCache.FreeFull | kernel/slab.c:161-189 | the object pointed into is live no more and the slab becomes partial |
| SlabCache.KmemCache.Trim | kernel/slab.c:195-211 | of more than two empty slabs exactly the first two remain; the pages of the others are given back once each |
| SlabCache.KmemCache.Free | kernel/slab.c:140-214 | whatever the address, exactly the live object it points into is freed; with none, nothing changes; pages go back only while two empty slabs remain |
| SlabCache.AlignedNotLive | kernel/slab.c:51-60 | an object-aligned address that is not live points into no live object |
| Pipe.Counters | kernel/pipe.c:72-104 | the comparisons of the 32-bit counters tell empty and full correctly across wraparound |
| Pipe.Fifo | kernel/pipe.c:62-112 | bytes consumed followed by the ring, read from the code's own variables, are the bytes accepted in order; the counters differ by at most PIPESIZE |
| Pipe.Pushed | kernel/pipe.c:79 | a byte written at nwrite % PIPESIZE extends what was accepted |
| Pipe.Popped | kernel/pipe.c:105 | the byte at nread % PIPESIZE is the next one accepted |
| Pipe.Pipe.Write | kernel/pipe.c:62-87 | bytes are accepted in order; it sleeps exactly on a full ring, fails exactly when the reader is gone or the caller killed; nothing is overwritten |
| Pipe.Pipe.Read | kernel/pipe.c:89-112 | the oldest bytes are delivered in order; it waits exactly on an empty pipe that may still be written; a byte is lost if and only if the address at which copying fails comes within n and within the bytes in the pipe |
| Grep.ParseSpells | user/grep.c:85-96 | the items a pattern is read as spell the pattern; a character before a '*' is starred, and a '$' is an end exactly when it comes last |
| Grep.OneReading | user/grep.c:85-96 | items with these properties are what their own spelling is read as |
| Grep.ParseIsTheReading | user/grep.c:85-96 | so the reading of a pattern is the only one of that kind |
| Grep.OneMatches | user/grep.c:93-95 | a character, or '.', at the front of the pattern |
| Grep.StarMatches | user/grep.c:99-106 | a starred character at the front of the pattern |
| Grep.OnlyEnd | user/grep.c:91-92 | a final '$' |
| Grep.MatchHere | user/grep.c:85-96 | 1 exactly when a prefix of the text, all of it under a final '$', is in the language of the pattern |
| Grep.MatchStar | user/grep.c:99-106 | the same for a starred character followed by a pattern |
| Grep.Match | user/grep.c:73-82 | 1 exactly when some part of the text, anchored as the pattern says, is in its language |

## Left out

- UserMap.MapPage: maps one page or one huge leaf at a time; the loop of mappages over a larger size, used at boot by kvmmap, would only repeat it.
- UserUnmap.Unmap: with do_free 0 the pages that lose their mapping are a ghost result; that they are exactly the frames the range had is said through ownership, not by listing them.
- GrowMemory.Uvmdealloc: the page count is an unbounded number; that it is an int in the code matters only for ranges of 2^31 pages, far beyond MAXVA.
- ProcessMemory.Process.Ok: the trampoline and trapframe pages, mapped above the size by proc_pagetable and unmapped without freeing by proc_freepagetable, are not part of the modelled table, so growing into them, which is a remap panic, is not covered, although GrowMemory.Uvmalloc has the exact condition for a table that holds them.
- BuddyAllocator.Buddy.FreeLocked: a block that passes the tests of the code must be the caller's; what the lists become when a page inside a free block is freed again is not modelled.
- BuddyAllocator.Buddy.Kfree: the same.
- BufferCache.Bcache.ToFront: the list is a sequence, so the four link updates of the source are not modelled (RunLists does that for the buddy allocator's lists).
- AddressSpace.Memory.Kalloc: hands out any free page that spares the free huge pages, and Memory.KallocHuge any aligned free run, instead of the one the buddy allocator would choose (BuddyMemory shows that it chooses such a one); page contents are opaque values.
- LogCode.Log.TryBeginOp: begin_op's sleep is an attempt that is not admitted and is repeated by the caller.
- LogCode.Log.Operation: LogCode is the sequential code, one operation at a time; interleaved operations are in LogSystem.
- InodeCode.FileSystem.Writei: the in-memory and the on-disk copy of an inode are one value, so iupdate only logs the inode's block; types, link counts, inode allocation and the inode table are not modelled.
- InodeCode.FileSystem.Balloc: the bitmap is a sequence of bits; how bits lie in its disk blocks matters only for which block is logged.
- UserMalloc.Heap.Malloc: nothing is claimed after sbrk has been asked for another amount than needed; sizes are unbounded numbers, with UserHeap.SizesFit saying when 32 bits suffice.
- SlabCache.KmemCache.Alloc: the lists are sequences, so the next pointers inside the slabs are not modelled; the fill patterns written by slab_alloc and slab_free are not either.
- SlabCache.KmemCache.Free: the contents of objects are not modelled, so that the fill of an address inside an object runs into the next object is not part of the contract.
- SleepWakeup.SchedNeverPanics: interrupts are not modelled, and with them sched's fourth test, that they are off.
- Pipe.Pipe.Write: one stretch between taking the lock and giving it up; wakeups are not part of it.
- ProcModel: a test-and-set of another process's state under its lock is one step; kill only wakes; a failing kfork, signals and kernel threads are left out. A process yields only in user code, so a timer interrupt at a point of the kernel that holds no lock (sleep before it takes the condition lock again, kfork between its locks) is not covered.
- AddressSpace.Space.Collapse: one sequential step, as p->lock does not stop user code on another hart.
- Directories, path names, the file table, exec, console, traps, boot and device drivers: plumbing around the parts above.
- walkaddr, copyin and copyout: they read the flat map that the model keeps, and would only add easy members.
- The sizes of mkfs's image, the shell, other user programs and tests.
