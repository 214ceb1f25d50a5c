# xv6 kernels: models and proofs

This project models the parts of the two xv6-riscv kernels whose correctness does not follow from
reading one function, and proves what they keep. XV6-1 adds a multi-level feedback queue, XV6-2 adds
copy-on-write fork; files that are the same in both trees are cited from XV6-2.

| modules | what they model |
|---|---|
| LogLayout, Log, LogProtocol, LogSleep | the redo log: the writes of commit and recovery with a crash between any two of them, log.c over the buffer cache, group commit of concurrent operations with crashes, and how operations sleep and are woken |
| Cow, CowOps, CowKernel, CowCopyout, CowRuns, CowLimits, CowFrames, Vm | reference-counted frames, copy-on-write fork, page faults and copyout, against a kernel in which every process has private memory; exactly when calls fail or leave a count too high; and where the frames go |
| PageTable | the three-level Sv39 tree (section 4.4 of the RISC-V Privileged Architecture, version 20211203) against a flat map |
| FsLayout, FsSpace, FsFile, FsChunk, FsCalls, FsRoom, Fs | the block allocator, direct and indirect blocks, reading, writing and truncating, and the transactions of filewrite, against files that are byte sequences; how many bytes a write accepts and which blocks it logs |
| Bcache | the buffer cache: LRU list, reference counts, pins, against a plain disk |
| Mlfq | the multi-level feedback queue with aging |
| SleepWakeup | sleep and wakeup for any condition, with both halves of sleep and every turn of wakeup's loop as steps of their own |
| WaitExit, ProcTable, SleepLock | exit, wait and fork over sleep and wakeup, and sleep locks, as interleaved steps |
| Pipe | the pipe ring under 32-bit counters, with any number of readers and writers |
| Virtio, VirtioRuns | the descriptors and rings of the disk driver (section 2.6 of VIRTIO 1.1) with a device that answers in any order |
| Umalloc | the Kernighan and Ritchie allocator |
| Grep | the regular-expression matcher and the line buffer around it |
| Sets | sizes of finite sets |

Code that changes things in place is a class whose methods are proved against functions of the old
state; what the code is for is then proved about those functions. Protocols are state machines: one
action is what one process does between two points where another can run, and the theorems speak
about every finite run. Pipe and Virtio take a process's stay in the lock, with its wakeups and
with falling asleep, for one action. That loses nothing: every run of the finer machine of SleepWakeup
whose stays do what the code does is a run of theirs (Pipe.PipeRunOf, VirtioRuns.VirtioRunOf).
Likewise LogSleep for LogProtocol.

Some things a reader may not expect are results here, each with its lemma:

- log_write panics at log.size - 1 = 29 blocks although LOGSIZE is 30. With ten blocks an operation,
  three admitted operations reach the panic (LogProtocol.BudgetTenOverflows); with at most nine they
  never do (LogProtocol.LogNeverTooBig).
- A store to a copy-on-write page between p->sz and the end of its page kills the process, although
  the same store to a page that was never shared succeeds (CowKernel.StoreExactly,
  CowLimits.StoreAboveSizeKills).
- copyout ignores PTE_W and goes on when kalloc fails. It stays within the process exactly when the
  frame has no other user, or the page is copy-on-write and a frame is free
  (CowCopyout.CopyoutIsolatedExactly, CowLimits.CopyoutEscapes).
- A uvmalloc that fails gives back the pages it mapped but not the page-table pages that its walks
  linked; these stay with the process until it exits (CowFrames.UvmallocFails).
- A uvmcopy that fails leaves one frame's count one too high. That happens exactly in a fork for
  which the free frames suffice for allocproc but not for the page-table pages of the copy, and
  nowhere else in a run (CowLimits.ForkExactly, CowLimits.CountsStayExactly, CowLimits.ForkThatLeaks).
- The scheduler leaves the CPU idle although processes wait, exactly when all runnable processes of
  the lowest occupied queue have wtime 0 (Mlfq.IdleExactly, Mlfq.IdlesWithWork).
- A queue's slice is one timer interrupt longer than the 1, 3, 9 and 15 ticks of XV6-1/README.md:171,
  because the test is `>` (Mlfq.SliceLength follows the code).
- A writer that is killed after it has put bytes into a pipe wakes nobody, and a reader may sleep
  next to them (Pipe.ReadersExactly, Pipe.KilledWriterLosesWakeup).
- grep stops without a word at a line of 1023 characters or more or with a NUL in it, and prints
  everything exactly when nothing from there on matches (Grep.GrepFile, Grep.PrintsAllExactly,
  Grep.LongLineIsLost).

## Model

| member | source | states |
|---|---|---|
| LogLayout.CommitCrash | XV6-2/initial-xv6/src/kernel/log.c:193-203 | a crash after any k of commit's writes recovers to the old home blocks up to the header write and to the new ones after it |
| LogLayout.RecoveryCrash | XV6-2/initial-xv6/src/kernel/log.c:116-123 | a crash after any k of recovery's writes leaves a disk that recovers to the same contents; all of them leave those contents at home |
| LogLayout.CrashAtomicity | XV6-2/initial-xv6/src/kernel/log.c:68-123 | commit cut off anywhere, then any number of recoveries cut off anywhere, then a complete one: every home block is old, or every one is new, decided by whether the header write happened; the log is empty |
| LogLayout.RecoveryIdempotent | XV6-2/initial-xv6/src/kernel/log.c:67-83 | a second recovery writes nothing but the empty header and changes no block |
| LogLayout.RecoversIsLogged | XV6-2/initial-xv6/src/kernel/log.c:85-97 | the header and copies on a disk are read back as exactly the transaction that recovery replays |
| LogLayout.CommitAssembled | XV6-2/initial-xv6/src/kernel/log.c:193-203 | write_log, write_head, install_trans and write_head together issue a commit's writes, and install_trans finds what write_log wrote |
| LogLayout.CommitFinal | XV6-2/initial-xv6/src/kernel/log.c:193-203 | after a commit disk and cache agree on the new contents and the header is empty |
| LogLayout.EntriesOfWithEntries | XV6-2/initial-xv6/src/kernel/log.c:85-114 | read_head reads back what write_head wrote |
| Log.Log.constructor | XV6-2/initial-xv6/src/kernel/log.c:54-65 | an empty log in memory over a disk that recovery can read |
| Log.Log.ReadHead | XV6-2/initial-xv6/src/kernel/log.c:85-97 | log.lh becomes the entries of the header block |
| Log.Log.WriteHead | XV6-2/initial-xv6/src/kernel/log.c:99-114 | one write: the header with count and entries replaced, the rest of the block kept |
| Log.Log.WriteLog | XV6-2/initial-xv6/src/kernel/log.c:177-191 | one write a block, in order: the cached contents of lh[i] into log block start+1+i |
| Log.Log.InstallTrans | XV6-2/initial-xv6/src/kernel/log.c:67-83 | one write a block, in order: log block start+1+i to its home; each unpinned unless recovering |
| Log.Log.Commit | XV6-2/initial-xv6/src/kernel/log.c:193-203 | writes exactly a commit, nothing for an empty log; disk and cache then agree and nothing is pinned |
| Log.Log.RecoverFromLog | XV6-2/initial-xv6/src/kernel/log.c:116-123 | writes exactly a recovery; every home block gets what the header says |
| Log.Log.BeginOp | XV6-2/initial-xv6/src/kernel/log.c:125-142 | admits an operation exactly when nothing commits and the reservation fits LOGSIZE |
| Log.Log.LogWrite | XV6-2/initial-xv6/src/kernel/log.c:205-235 | panics exactly for a full log or outside a transaction; otherwise absorbs or appends the block and pins it once |
| Log.Log.EndOp | XV6-2/initial-xv6/src/kernel/log.c:144-175 | the last operation, and only it, commits everything logged |
| LogProtocol.StepKeeps | XV6-2/initial-xv6/src/kernel/log.c:126-235 | every step of operations, committer and crash keeps the relation between disk, cache, log and history |
| LogProtocol.CrashSafety | XV6-2/initial-xv6/src/kernel/log.c:126-235 | at any moment of any run, with any crashes before, recovery yields the effect of a prefix of the history in which no operation is half done |
| LogProtocol.QuiescentIsDurable | XV6-2/initial-xv6/src/kernel/log.c:144-175 | when nothing runs and nothing commits, all that was done is on the disk |
| LogProtocol.DurableGrows | XV6-2/initial-xv6/src/kernel/log.c:193-203 | no step takes back what is durable; it grows only when no operation runs, and then takes in everything |
| LogProtocol.HomeWrittenAfterCommit | XV6-2/initial-xv6/src/kernel/log.c:67-83 | home blocks are written only while installing, with the committed contents, never while an operation is outstanding or before the header write |
| LogProtocol.CommittingFreezesLog | XV6-2/initial-xv6/src/kernel/log.c:126-175 | while committing is set no operation runs and log.lh does not change until it is cleared |
| LogProtocol.LogNeverTooBig | XV6-2/initial-xv6/src/kernel/log.c:126-142 | with at most m blocks an operation the log holds at most 10+2m, so at most LOGSIZE; for m <= 9 the panic of log_write is unreachable |
| LogProtocol.BudgetTenOverflows | XV6-2/initial-xv6/src/kernel/log.c:214-235 | a reachable state of mkfs's layout (log size 30) in which operations within MAXOPBLOCKS meet that panic |
| LogProtocol.CommitterCommits | XV6-2/initial-xv6/src/kernel/log.c:193-203 | the 2n + 2 steps of the committer write exactly the writes of one commit() of LogLayout |
| LogProtocol.SleepersAreTold | XV6-2/initial-xv6/src/kernel/log.c:125-175 | the test of begin_op turns from sleeping to admitting only where end_op calls wakeup |
| LogSleep.NoOperationIsForgotten | XV6-2/initial-xv6/src/kernel/log.c:125-175 | in every interleaving of sleep, wakeup and kill with the operations and the committer: log.c keeps the rule of sleep and wakeup, and whenever log.lock is free whoever sleeps in begin_op, or is about to, would not be admitted |
| LogSleep.ProtocolRunOf | XV6-2/initial-xv6/src/kernel/log.c:125-235 | what the log goes through in such an interleaving is a run of LogProtocol |
| Cow.DropKeeps | XV6-2/initial-xv6/src/kernel/kalloc.c:50-76 | kfree of one reference keeps free, mapped and kernel-owned frames disjoint and every count exact, and no mapped page loses its contents |
| Cow.BreakKeeps | XV6-2/initial-xv6/src/kernel/trap.c:32-61 | the copy of a copy-on-write page cannot be seen by any process and leaves the page writable and exclusive |
| Cow.SettleKeeps | XV6-2/initial-xv6/src/kernel/vm.c:311-355 | the child sees what the parent sees, nobody else notices |
| Cow.PokeKeeps | XV6-2/initial-xv6/src/kernel/trap.c:87-110 | a byte stored through a writable mapping changes that page of that process only |
| Cow.FreeFreshKeeps | XV6-2/initial-xv6/src/kernel/kalloc.c:37-76 | freerange's kfree of a frame that was never used pushes it once |
| CowOps.UvmcopyRefines | XV6-2/initial-xv6/src/kernel/vm.c:311-355 | uvmcopy is an eager copy for every process, or fails, changes no memory and leaves one count one too high; CowLimits.UvmcopyExactly says when |
| CowOps.Uvmalloc | XV6-2/initial-xv6/src/kernel/vm.c:229-273 | uvmalloc adds zeroed pages, or fails and restores the old mapping and counts; CowLimits.UvmallocExactly says when |
| CowKernel.CowRefinesPrivate | XV6-2/initial-xv6/src/kernel/vm.c:311-428 | over any run of fork, stores, growing, shrinking and exit, every process has the bytes, permissions and size that private memory would give it; CowLimits.OutcomesExactly says which calls succeed |
| CowKernel.LoadsAgree | XV6-2/initial-xv6/src/kernel/vm.c:311-355 | after any run a load returns what it would return with private memory |
| CowKernel.StoreExactly | XV6-2/initial-xv6/src/kernel/trap.c:87-110 | a permitted store goes through if and only if the page is already writable, or a frame is free and the address is below p->sz |
| CowKernel.FramesAccounted | XV6-2/initial-xv6/src/kernel/kalloc.c:50-100 | a mapped frame is not free; its count is the number of mappings plus what failed forks have left; a writable mapping is the only one |
| CowKernel.FrameKinds | XV6-2/initial-xv6/src/kernel/kalloc.c:46-100 | in every state of a run a kernel-owned page counts one, and a free frame is on the free list once, not in use, with no count |
| CowKernel.OnlyFailedForksLeak | XV6-2/initial-xv6/src/kernel/vm.c:311-355 | without failing forks no count is ever too high; CowLimits.CountsStayExactly is the exact condition |
| CowLimits.UvmcopyExactly | XV6-2/initial-xv6/src/kernel/vm.c:305-355 | uvmcopy succeeds, and leaves no count too high, if and only if there is a free frame for every missing page-table page |
| CowLimits.UvmallocExactly | XV6-2/initial-xv6/src/kernel/vm.c:229-255 | uvmalloc succeeds if and only if there is a free frame for every new page and every missing page-table page |
| CowLimits.ForkExactly | XV6-2/initial-xv6/src/kernel/proc.c:287-337 | fork succeeds if and only if the free frames suffice for allocproc and the copy, and leaves a count too high if and only if they suffice for allocproc alone |
| CowLimits.ForkNeeds | XV6-2/initial-xv6/src/kernel/proc.c:287-337 | fork of a process of n pages succeeds if and only if four frames and one for each table of the copy, as PageTable counts them, are free; it leaves a count too high if and only if the four are free and the others are not |
| CowLimits.GrowNeeds | XV6-2/initial-xv6/src/kernel/proc.c:264-285 | sbrk of a process that has only grown succeeds if and only if there is a free frame for every new page and for each table that they add |
| CowLimits.SucceedsExactly | XV6-2/initial-xv6/src/kernel/vm.c:229-355 | each call succeeds if and only if a condition on the state before it holds, and leaves a count too high if and only if it is such a fork |
| CowLimits.OutcomesExactly | XV6-2/initial-xv6/src/kernel/vm.c:229-355 | the outcome of every call of a run is that condition in the state that the call meets |
| CowLimits.LeaksCounted | XV6-2/initial-xv6/src/kernel/vm.c:305-355 | over a run the counts that are too high grow by one for each leaking fork and by nothing else |
| CowLimits.CountsStayExactly | XV6-2/initial-xv6/src/kernel/vm.c:305-355 | the counts stay exact over a run if and only if no call of it is a leaking fork |
| CowLimits.ForkThatLeaks | XV6-2/initial-xv6/src/kernel/vm.c:335-353 | a state with four free frames in which fork fails and leaves a count too high |
| CowLimits.StoreAboveSizeKills | XV6-2/initial-xv6/src/kernel/trap.c:87-110 | after sbrk to an unaligned size and a fork, a store above p->sz in a page that private memory would let be written kills the process |
| CowLimits.CopyoutEscapes | XV6-2/initial-xv6/src/kernel/vm.c:376-428 | after a fork that takes the last frame, copyout reports success and has written the page of both processes |
| CowRuns.RunRefinesPrivate | XV6-2/initial-xv6/src/kernel/vm.c:305-428 | the same over runs that also hold copyouts, wherever copyout can spare the other processes |
| CowRuns.CopyToRefines | XV6-2/initial-xv6/src/kernel/vm.c:376-428 | such a copyout writes what it would write over private memory, up to the first page that is not mapped for the user, and returns 0 exactly when that is everything |
| CowCopyout.CheckCowPage | XV6-2/initial-xv6/src/kernel/vm.c:370-374 | the comparison with p->sz never decides |
| CowCopyout.CopyoutIsolatedExactly | XV6-2/initial-xv6/src/kernel/vm.c:376-428 | one page of copyout changes no other page if and only if the frame has no other user, or the page is copy-on-write and a frame is free |
| CowCopyout.CopyoutWrites | XV6-2/initial-xv6/src/kernel/vm.c:376-428 | if every page up to where copyout stops can be spared, exactly the bytes up to there of that process change; 0 exactly when that is everything |
| CowCopyout.CopyoutExactly | XV6-2/initial-xv6/src/kernel/vm.c:376-428 | where private memory lets the process write: copyout does for every n bytes what it would do over private memory if and only if each page, after the copies before it, has a frame without other users or is copy-on-write with a frame free |
| CowCopyout.EnoughFrames | XV6-2/initial-xv6/src/kernel/vm.c:376-428 | a free frame for every copy-on-write page of the range with a count above one is enough for that; pages that are writable need none |
| CowFrames.CallOnly | XV6-2/initial-xv6/src/kernel/proc.c:264-337 | a call changes which frames are mapped, and which page-table pages are owned, for one process only (the child in fork), and never drops the last reference to a frame without pushing it on the free list |
| CowFrames.FreeExactly | XV6-2/initial-xv6/src/kernel/kalloc.c:46-100 | conservation, in every state of any run with copyouts: a frame is on the free list if and only if nothing maps it, it is no page-table page, no failed fork has left a count on it and it was not lost at the start; and every page-table page belongs to a process that exists |
| CowFrames.FirstLosesNothing | XV6-2/initial-xv6/src/kernel/kalloc.c:30-44 | after start-up no frame is lost and the page-table pages belong to the first process |
| CowFrames.ExitGivesBack | XV6-2/initial-xv6/src/kernel/proc.c:160-180 | exit frees exactly the page-table pages of the process and the frames that only its pages used, counts them, and leaves every other mapping and owner as it was |
| CowFrames.ShrinkGivesBack | XV6-2/initial-xv6/src/kernel/proc.c:264-285 | growproc with n < 0 frees exactly the frames that only the pages taken away used |
| CowFrames.ForkFrames | XV6-2/initial-xv6/src/kernel/proc.c:287-337 | fork takes from the free list exactly the page-table pages of the child, as many as its walks miss; a fork that fails leaves exactly the frames free that were free before |
| CowFrames.UvmallocFails | XV6-2/initial-xv6/src/kernel/vm.c:229-273 | a uvmalloc that fails stops at the first page that the free frames do not suffice for; the number of free frames afterwards; all it keeps are the page-table pages that it added |
| Vm.Vm.constructor | XV6-2/initial-xv6/src/kernel/kalloc.c:30-35 | no frame is free, mapped or counted yet |
| Vm.Vm.Free | XV6-2/initial-xv6/src/kernel/kalloc.c:46-76 | kfree: one count less; at zero, and only then, the frame is pushed on the free list |
| Vm.Vm.Alloc | XV6-2/initial-xv6/src/kernel/kalloc.c:78-100 | kalloc: the head of the free list, with count 1, or null when there is none |
| Vm.Vm.FreeRange | XV6-2/initial-xv6/src/kernel/kalloc.c:37-44 | every frame of the range becomes free, once |
| Vm.Vm.Uvmunmap | XV6-2/initial-xv6/src/kernel/vm.c:173-198 | the pages of the range lose their references, in order |
| Vm.Vm.UvmCopy | XV6-2/initial-xv6/src/kernel/vm.c:305-355 | the loop with its unmapping on failure is the function of CowOps.UvmcopyRefines |
| Vm.Vm.UvmAlloc | XV6-2/initial-xv6/src/kernel/vm.c:229-255 | the loop with its undoing is the function CowOps.Uvmalloc |
| Vm.Vm.Cowhandler | XV6-2/initial-xv6/src/kernel/trap.c:32-61 | fails without effect or breaks the sharing of the page |
| Vm.Vm.Store | XV6-2/initial-xv6/src/kernel/trap.c:87-110 | a store instruction with the page-fault arm of usertrap |
| Vm.Vm.Fork | XV6-2/initial-xv6/src/kernel/proc.c:287-337 | fork; on failure the child's pages go back, see CowFrames.ForkFrames |
| Vm.Vm.Grow | XV6-2/initial-xv6/src/kernel/proc.c:264-285 | growproc with n > 0 |
| Vm.Vm.Shrink | XV6-2/initial-xv6/src/kernel/proc.c:264-285 | growproc with n < 0; more than there is changes nothing |
| Vm.Vm.FreeWalk | XV6-2/initial-xv6/src/kernel/vm.c:275-293 | every page-table page of the process is freed |
| Vm.Vm.FreeProc | XV6-2/initial-xv6/src/kernel/proc.c:160-180 | the two loops compute the function of CowFrames.ExitGivesBack: the user pages, then every page-table page of the process, go back |
| Vm.Vm.CopyOut | XV6-2/initial-xv6/src/kernel/vm.c:376-428 | copyout's loop; false for a page that is not mapped for the user |
| PageTable.PxInjective | XV6-2/initial-xv6/src/kernel/riscv.h:355-364 | below MAXVA the three indices determine the page |
| PageTable.AddTableKeeps | XV6-2/initial-xv6/src/kernel/vm.c:79-109 | linking a zeroed table keeps the tree a tree |
| PageTable.AddTableFlat | XV6-2/initial-xv6/src/kernel/vm.c:79-109 | and changes no mapping |
| PageTable.SetEntryFlat | XV6-2/initial-xv6/src/kernel/vm.c:144-171 | writing a lowest-level entry changes the mapping of exactly one page |
| PageTable.WalkAdds | XV6-2/initial-xv6/src/kernel/vm.c:79-109 | a level that is missing costs exactly one page |
| PageTable.SubtreeIsKids | XV6-2/initial-xv6/src/kernel/vm.c:275-293 | the tables under a table are those its entries lead to, each once |
| PageTable.NewTable | XV6-2/initial-xv6/src/kernel/proc.c:184-214 | proc_pagetable's first page adds two tables, its second none |
| PageTable.MapNeeds | XV6-2/initial-xv6/src/kernel/vm.c:144-171 | mapping pages 0, 1, 2 and so on after that, as uvmcopy and uvmalloc do, page v adds two tables when it is the first of 512 * 512, else one when it is the first of 512, else none; fewer only where the top pages have theirs |
| PageTable.MapRangeBits | XV6-2/initial-xv6/src/kernel/vm.c:158-166 | page v + k gets frame + k, PTE_V and exactly the bits of perm; every other page keeps its entry |
| PageTable.PageTable.constructor | XV6-2/initial-xv6/src/kernel/vm.c:200-211 | uvmcreate: an empty mapping |
| PageTable.PageTable.Walk | XV6-2/initial-xv6/src/kernel/vm.c:79-109 | finds the entry of the page, adds exactly the missing tables, returns 0 exactly when they are missing and may or can not be added, panics exactly at MAXVA; no mapping changes |
| PageTable.PageTable.MapOne | XV6-2/initial-xv6/src/kernel/vm.c:158-166 | maps the page to the frame with PTE_V and exactly the bits of perm, and adds exactly the tables on its way that were missing; panics exactly at MAXVA or a page that is mapped |
| PageTable.PageTable.Mappages | XV6-2/initial-xv6/src/kernel/vm.c:144-171 | maps exactly the first done pages of its range, each to its own consecutive frame with PTE_V and exactly the bits of perm; says when it maps all, runs out of memory, or panics |
| PageTable.PageTable.Uvmunmap | XV6-2/initial-xv6/src/kernel/vm.c:173-198 | unmaps exactly its range and frees exactly the frames that were mapped there; panics exactly at a page that is not mapped or an unaligned address |
| PageTable.PageTable.FreeWalk | XV6-2/initial-xv6/src/kernel/vm.c:275-293 | panics if and only if there is a leaf in the subtree; otherwise frees every table of it exactly once and no other |
| PageTable.PageTable.FreeTree | XV6-2/initial-xv6/src/kernel/vm.c:295-303 | panics if and only if something is still mapped; otherwise all page-table pages go back, each once |
| FsLayout.BitWithBit | XV6-2/initial-xv6/src/kernel/fs.c:65-105 | setting or clearing a bit of a bitmap block changes that bit only |
| FsLayout.BitAt | XV6-2/initial-xv6/src/kernel/fs.c:65-105 | bit i of a bitmap block is bit i % 8, from the lowest, of byte i / 8 |
| FsLayout.LittleEndian | XV6-2/initial-xv6/src/kernel/fs.c:401-417 | a block number is stored in four bytes, the lowest first, and no other byte changes |
| FsLayout.WordWithWord | XV6-2/initial-xv6/src/kernel/fs.c:401-417 | storing a block number in an indirect block changes that number only |
| FsSpace.BallocTakes | XV6-2/initial-xv6/src/kernel/fs.c:63-88 | balloc returns the first block whose bit is clear, zeroed, which nobody held, and marks it; 0 exactly when every bit is set |
| FsSpace.BfreeReleases | XV6-2/initial-xv6/src/kernel/fs.c:90-105 | bfree of a held block cannot panic and clears exactly its bit |
| FsSpace.GetOrAllocGrows | XV6-2/initial-xv6/src/kernel/fs.c:379-421 | a block that is there is returned; otherwise one that nobody held is added at this place only, or the disk is full |
| FsFile.BmapGrows | XV6-2/initial-xv6/src/kernel/fs.c:379-421 | bmap finds the block or adds one without touching a byte of any file, out of space included |
| FsFile.PutWrote | XV6-2/initial-xv6/src/kernel/fs.c:498-539 | writing into a data block changes bytes of that block of that file only |
| FsFile.WriteFromWrote | XV6-2/initial-xv6/src/kernel/fs.c:498-539 | writei's loop writes a prefix of the data at the offset and changes no other byte; FsRoom.WriteiExactly says how long a prefix |
| FsFile.WriteiRefines | XV6-2/initial-xv6/src/kernel/fs.c:498-539 | -1 exactly for a refused range, without effect; otherwise the file is overwritten by the bytes accepted and every other file is as before; FsRoom.WriteiExactly says how many |
| FsFile.ReadFromExact | XV6-2/initial-xv6/src/kernel/fs.c:467-496 | over bytes that have blocks reading allocates nothing |
| FsFile.ReadiReads | XV6-2/initial-xv6/src/kernel/fs.c:467-496 | readi returns exactly the slice of the file and changes nothing |
| FsFile.SliceAt | XV6-2/initial-xv6/src/kernel/fs.c:474-477 | the slice is n bytes from off on, or as many as the file has, and nothing past the end or when off + n wraps around |
| FsFile.ItruncEmpties | XV6-2/initial-xv6/src/kernel/fs.c:423-453 | the file is empty, holds no block, and every other place holds what it held |
| FsFile.ItruncClearsBits | XV6-2/initial-xv6/src/kernel/fs.c:423-453 | exactly the bits of the blocks that the inode held are cleared |
| FsChunk.BmapLogs | XV6-2/initial-xv6/src/kernel/fs.c:379-421 | the blocks that one bmap logs |
| FsChunk.WriteFromLogs | XV6-2/initial-xv6/src/kernel/fs.c:498-539 | the blocks that writei's loop logs: one data block a step, a bitmap block only for new ones, the indirect block and its bitmap block |
| FsChunk.ChunkBlocks | XV6-2/initial-xv6/src/kernel/file.c:155-165 | a chunk touches at most three blocks, or four of which the first is already allocated |
| FsChunk.ChunkFitsTransaction | XV6-2/initial-xv6/src/kernel/file.c:155-165 | a chunk logs at most MAXOPBLOCKS blocks for any bitmap layout, at most 7 when one bitmap block covers the disk |
| FsCalls.FileWriteWrites | XV6-2/initial-xv6/src/kernel/file.c:148-175 | filewrite writes a prefix, advances the offset by it, and reports success exactly when it is everything; FsRoom.FileWriteExactly says how long a prefix |
| FsCalls.FilesRefine | XV6-2/initial-xv6/src/kernel/fs.c:379-539 | over any run of reads, writes and truncations of any files the disk behaves as files that are byte sequences; a write stops early only at a gap before the offset, at the largest file size or on a full disk, and where exactly says FsRoom.FileWriteExactly for each of its states |
| FsCalls.WroteFull | XV6-2/initial-xv6/src/kernel/file.c:148-175 | a write of a run reports a full disk exactly when the disk is full after it |
| FsRoom.BmapTakes | XV6-2/initial-xv6/src/kernel/fs.c:379-421 | bmap finds a block if and only if there is a free block for every empty place on the way to it; it takes exactly those, and logs exactly them, their bitmap blocks and the indirect block with a new entry |
| FsRoom.WriteiExactly | XV6-2/initial-xv6/src/kernel/fs.c:498-539 | writei accepts m bytes if and only if there is a free block for every place that m bytes need; it takes those, and stops early only with no bit clear and no block for the next byte; it logs exactly the new blocks with their bitmap blocks, the indirect block with a new entry, the data blocks of the bytes and the block of the inode |
| FsRoom.WriteiOver | XV6-2/initial-xv6/src/kernel/fs.c:498-539 | over bytes that have blocks writei accepts everything, on any disk, and takes no block |
| FsRoom.FileWriteExactly | XV6-2/initial-xv6/src/kernel/file.c:148-175 | filewrite within the file writes m bytes if and only if there is a free block for every place they need and they are within the largest size, up to a whole chunk |
| FsRoom.FileWriteSucceeds | XV6-2/initial-xv6/src/kernel/file.c:148-175 | filewrite reports success if and only if there is nothing to write, or the bytes start within the file, end within the largest size, and have free blocks for what they need |
| FsRoom.ItruncLogs | XV6-2/initial-xv6/src/kernel/fs.c:423-453 | itrunc logs exactly the bitmap blocks of the blocks that the inode held and the block of the inode |
| Fs.Fs.constructor | XV6-2/initial-xv6/src/mkfs/mkfs.c:234-249 | a formatted disk: the bits of the blocks in use are set |
| Fs.Fs.ScanBlock | XV6-2/initial-xv6/src/kernel/fs.c:63-88 | the inner loop finds the first clear bit of its bitmap block |
| Fs.Fs.FindFree | XV6-2/initial-xv6/src/kernel/fs.c:63-88 | the outer loop finds the first block whose bit is clear, 0 for none |
| Fs.Fs.Balloc | XV6-2/initial-xv6/src/kernel/fs.c:63-88 | the loops compute the function of FsSpace.BallocTakes |
| Fs.Fs.Bfree | XV6-2/initial-xv6/src/kernel/fs.c:90-105 | clears the bit of a marked block |
| Fs.Fs.Bmap | XV6-2/initial-xv6/src/kernel/fs.c:379-421 | computes the function of FsFile.BmapGrows |
| Fs.Fs.Writei | XV6-2/initial-xv6/src/kernel/fs.c:498-539 | the loop computes the function of FsFile.WriteiRefines and FsRoom.WriteiExactly |
| Fs.Fs.Readi | XV6-2/initial-xv6/src/kernel/fs.c:467-496 | returns the slice and leaves the disk as it was |
| Fs.Fs.Itrunc | XV6-2/initial-xv6/src/kernel/fs.c:423-453 | both loops compute the function of FsFile.ItruncEmpties and FsRoom.ItruncLogs |
| Fs.Fs.WriteTransaction | XV6-2/initial-xv6/src/kernel/file.c:158-165 | one transaction of filewrite logs at most MAXOPBLOCKS blocks |
| Fs.Fs.Filewrite | XV6-2/initial-xv6/src/kernel/file.c:148-175 | the loop computes the function of FsCalls.FileWriteWrites and FsRoom.FileWriteExactly |
| Bcache.StepKeeps | XV6-2/initial-xv6/src/kernel/bio.c:55-151 | every step keeps list, counts, uniqueness of blocks and agreement with the disk |
| Bcache.MissIsFree | XV6-2/initial-xv6/src/kernel/bio.c:55-89 | a recycled buffer is held, waited for or pinned by nobody and, if valid, equals the disk |
| Bcache.RecyclesOldest | XV6-2/initial-xv6/src/kernel/bio.c:74-86 | of all unreferenced buffers it is the one whose last brelse is the oldest, or it has never been released |
| Bcache.StepView | XV6-2/initial-xv6/src/kernel/bio.c:55-151 | only a change by the holder of the lock changes what a block contains |
| Bcache.StopsCaching | XV6-2/initial-xv6/src/kernel/bio.c:74-86 | a block leaves the cache only when its buffer equals the disk |
| Bcache.CacheAgreesWithDisk | XV6-2/initial-xv6/src/kernel/bio.c:36-151 | in every run a valid buffer holds the last change made to its block, or the initial disk block; unheld and unpinned it equals the disk |
| Bcache.StepWrites | XV6-2/initial-xv6/src/kernel/bio.c:105-112 | bwrite, and nothing else, writes to the disk: the block of its buffer becomes what the buffer holds, no buffer changes, and the two then agree |
| Bcache.DiskHoldsLastWrite | XV6-2/initial-xv6/src/kernel/bio.c:105-112 | in every run a disk block holds what the buffer of the last bwrite of it held, or what it held at first |
| Bcache.MoveKeepsList | XV6-2/initial-xv6/src/kernel/bio.c:114-137 | moving the released buffer to the front keeps the list complete and its unreferenced buffers sorted by their last brelse |
| Bcache.Bcache.constructor | XV6-2/initial-xv6/src/kernel/bio.c:36-53 | binit links all buffers into the cycle |
| Bcache.Bcache.Find | XV6-2/initial-xv6/src/kernel/bio.c:55-72 | the first loop of bget: a buffer with the block, if there is one |
| Bcache.Bcache.FindUnused | XV6-2/initial-xv6/src/kernel/bio.c:74-89 | the second loop: the last unreferenced buffer of the list |
| Bcache.Bcache.Bget | XV6-2/initial-xv6/src/kernel/bio.c:55-89 | a hit or the recycling of the oldest unreferenced buffer; the panic exactly when all are referenced |
| Bcache.Bcache.Read | XV6-2/initial-xv6/src/kernel/bio.c:91-103 | the buffer then holds what the block contains |
| Bcache.Bcache.Acquire | XV6-2/initial-xv6/src/kernel/sleeplock.c:21-31 | one pass of acquiresleep: the lock, exactly when nobody holds it |
| Bcache.Bcache.BwriteBuf | XV6-2/initial-xv6/src/kernel/bio.c:105-112 | the disk block of the buffer gets the contents of the buffer; everything else is as it was |
| Bcache.Bcache.Brelse | XV6-2/initial-xv6/src/kernel/bio.c:114-137 | the last reference moves the buffer to the front of the cycle |
| Bcache.Bcache.Bpin | XV6-2/initial-xv6/src/kernel/bio.c:139-144 | one pin more |
| Bcache.Bcache.Bunpin | XV6-2/initial-xv6/src/kernel/bio.c:146-151 | one pin less |
| Bcache.Bcache.Unlink | XV6-2/initial-xv6/src/kernel/bio.c:125-127 | next and prev are the links of the cycle without the buffer |
| Bcache.Bcache.PushFront | XV6-2/initial-xv6/src/kernel/bio.c:128-131 | and with the buffer at the front |
| Mlfq.StepKeeps | XV6-1/initial-xv6/src/kernel/proc.c:520-573 | selection, ticks, timer interrupts, allocation and outside moves keep the queues in range and wtime at most 30 outside queue 0 |
| Mlfq.ChosenIsUnique | XV6-1/initial-xv6/src/kernel/proc.c:520-553 | the table determines the queue and the process that are selected |
| Mlfq.AheadShrinks | XV6-1/initial-xv6/src/kernel/proc.c:541-573 | as long as p waits in queue 0 with wtime >= 1, no step adds to the processes that can go before it, and every selection removes one |
| Mlfq.BoundedOvertaking | XV6-1/initial-xv6/src/kernel/proc.c:520-573 | at most as many other dispatches precede p as there are processes ahead of it, so at most NPROC-1 |
| Mlfq.NoStarvation | XV6-1/initial-xv6/src/kernel/proc.c:871-897 | from queue q, within 31*q+1 ticks p has been dispatched or waits in queue 0 with wtime >= 1 |
| Mlfq.IdleExactly | XV6-1/initial-xv6/src/kernel/proc.c:541-573 | nothing is dispatched exactly when every runnable process of the lowest occupied queue has wtime 0 |
| Mlfq.IdlesWithWork | XV6-1/initial-xv6/src/kernel/proc.c:541-573 | a table in which a process with wtime 20 is passed over and the CPU idles |
| Mlfq.SliceLength | XV6-1/initial-xv6/src/kernel/trap.c:100-132 | a process dispatched from queue 0, 1, 2 or 3 runs for 1, 3, 9 or 15 timer interrupts; the next one demotes it, except from the last queue, and ends its turn |
| Mlfq.Scheduler.MinQue | XV6-1/initial-xv6/src/kernel/proc.c:520-540 | the lowest queue with a runnable process |
| Mlfq.Scheduler.Pick | XV6-1/initial-xv6/src/kernel/proc.c:541-553 | of that queue, the process with the largest positive wtime, the first of equals |
| Mlfq.Scheduler.Schedule | XV6-1/initial-xv6/src/kernel/proc.c:555-573 | one selection is one step of the machine: the process picked runs with wtime and qtime 0, nobody else changes |
| Mlfq.Scheduler.UpdateTime | XV6-1/initial-xv6/src/kernel/proc.c:871-897 | one call is one tick of the machine: a runnable process has waited one tick more, or 31 and moves up a queue with wtime 0; nobody else changes |
| Mlfq.Scheduler.TimerInterrupt | XV6-1/initial-xv6/src/kernel/trap.c:100-132 | one timer interrupt in user mode is one step of the machine: qtime grows by one up to 1, 3, 9 or 15, and then the turn ends |
| Mlfq.Scheduler.AllocProc | XV6-1/initial-xv6/src/kernel/proc.c:105-167 | takes the first unused entry, with queue 0 and wtime and qtime 0, or says that there is none |
| SleepWakeup.StepKeeps | XV6-2/initial-xv6/src/kernel/proc.c:597-645 | every step of sleep, wakeup and kill, of the holders of the lock and of changes without it keeps the invariant |
| SleepWakeup.NoLostWakeup | XV6-2/initial-xv6/src/kernel/proc.c:597-645 | for any condition and any run in which whoever changes an outcome that sleepers have seen holds the lock and calls wakeup before giving it up: whenever the lock is free, everybody asleep or about to be would test the same again and sleep again |
| SleepWakeup.UnannouncedExactly | XV6-2/initial-xv6/src/kernel/proc.c:597-645 | giving up the lock, by release or by going to sleep, with or without that wakeup, leaves somebody asleep on an old test if and only if a sleeper's test has another outcome than when the lock was taken |
| SleepWakeup.AsleepExactly | XV6-2/initial-xv6/src/kernel/proc.c:597-672 | in every execution a process is asleep if and only if it has gone to sleep and neither kill nor a wakeup on its channel has come to it since |
| SleepWakeup.SleepIsOneStep | XV6-2/initial-xv6/src/kernel/proc.c:597-645 | every interleaving of the two halves of sleep, of wakeup's loop and of kill is, action by action, a run in which giving up the lock is one step by a process that is awake, with exactly the data, the wakeups and the channel that its stay has come to |
| WaitExit.StepKeeps | XV6-2/initial-xv6/src/kernel/proc.c:287-454 | every step of fork, exit, wait, kill and other sleeps keeps the invariant |
| WaitExit.UsedExactly | XV6-2/initial-xv6/src/kernel/proc.c:287-337 | in every state of every execution an entry is USED if and only if a process is in fork making it, and then exactly one |
| WaitExit.LifeCycle | XV6-2/initial-xv6/src/kernel/proc.c:287-454 | exactly when an entry is taken, made RUNNABLE, given back and freed, and by whom: after fork the child is RUNNABLE with the caller as parent, after a failed fork UNUSED; only wait of its parent frees a zombie |
| WaitExit.WakesAndEnds | XV6-2/initial-xv6/src/kernel/proc.c:355-400 | exactly when a process becomes a zombie, falls asleep and is woken, by kill or by a wakeup on its channel |
| WaitExit.WaitDecides | XV6-2/initial-xv6/src/kernel/proc.c:444-452 | at the end of its scan wait sleeps if and only if it has a child and has not been killed |
| WaitExit.ExitAdvances | XV6-2/initial-xv6/src/kernel/proc.c:355-400 | every step of exit brings it nearer to its end |
| WaitExit.NoLostWakeup | XV6-2/initial-xv6/src/kernel/proc.c:355-454 | whenever wait_lock is free nobody asleep in wait, or on the way to sleep there, has a zombie child |
| WaitExit.ParentsAlive | XV6-2/initial-xv6/src/kernel/proc.c:339-400 | no process has a zombie or unused parent; every process that has run, init apart, has a living one |
| WaitExit.WaitTells | XV6-2/initial-xv6/src/kernel/proc.c:402-454 | wait sleeps only with no zombie child, and at the end of the scan knows whether it has children |
| WaitExit.OneHolder | XV6-2/initial-xv6/src/kernel/proc.c:597-625 | at most one process is between taking and releasing wait_lock |
| ProcTable.Table.Wakeup | XV6-2/initial-xv6/src/kernel/proc.c:627-645 | exactly the processes asleep on the channel, the caller apart, become runnable |
| ProcTable.Table.Reparent | XV6-2/initial-xv6/src/kernel/proc.c:339-353 | exactly the children of p go to init, which is woken exactly when there is one |
| ProcTable.Table.Exit | XV6-2/initial-xv6/src/kernel/proc.c:372-396 | afterwards p is a zombie without children, and neither its parent nor the new parent of its children is asleep in wait |
| ProcTable.Table.Scan | XV6-2/initial-xv6/src/kernel/proc.c:402-444 | the lowest zombie child is freed, nothing else changes; without one it tells whether there are children |
| SleepLock.StepKeeps | XV6-2/initial-xv6/src/kernel/sleeplock.c:21-41 | every step keeps: locked exactly while a process is inside, by the process whose pid the lock holds |
| SleepLock.AtMostOneHolder | XV6-2/initial-xv6/src/kernel/sleeplock.c:21-41 | in every interleaving at most one process is between acquiresleep and releasesleep |
| SleepLock.NobodySleepsOnFreeLock | XV6-2/initial-xv6/src/kernel/sleeplock.c:21-41 | whenever lk->lk is free, who sleeps on the lock, or is about to, waits for a holder |
| Pipe.PipeIsFifo | XV6-2/initial-xv6/src/kernel/pipe.c:76-130 | over any run of stays in the lock the bytes taken out are a prefix of the bytes put in, at most PIPESIZE are between, readers and writers never sleep at the same time, and no writer sleeps once the read end is closed |
| Pipe.PipeRunOf | XV6-2/initial-xv6/src/kernel/pipe.c:58-130 | every interleaving of sleep, wakeup's loop and kill whose stays follow pipe.c is such a run, with the same bytes and sleepers whenever pi->lock is free |
| Pipe.EveryInterleavingIsFifo | XV6-2/initial-xv6/src/kernel/pipe.c:58-130 | so in every such interleaving the pipe is first in, first out, and nobody sleeps in pipewrite, or is about to, unless the pipe is full, open for reading and without a sleeping reader |
| Pipe.StayIsStep | XV6-2/initial-xv6/src/kernel/pipe.c:58-130 | a stay that moves the bytes, wakes the channels and sleeps as pipe.c does is a step |
| Pipe.StayInLock | XV6-2/initial-xv6/src/kernel/pipe.c:58-130 | and a step of a process that is awake is such a stay |
| Pipe.ReadersExactly | XV6-2/initial-xv6/src/kernel/pipe.c:76-103 | a step leaves a reader asleep next to unread bytes exactly when a killed writer returns after storing some |
| Pipe.NoReaderMissesBytes | XV6-2/initial-xv6/src/kernel/pipe.c:105-130 | without such a write no reader sleeps while there are bytes or no writer |
| Pipe.KilledWriterLosesWakeup | XV6-2/initial-xv6/src/kernel/pipe.c:81-88 | a run in which that happens |
| Pipe.Wrapped | XV6-2/initial-xv6/src/kernel/pipe.c:87-97 | 32-bit counters tell a full and an empty ring apart, and their remainders are the slots, across wraparound |
| Pipe.Pipe.constructor | XV6-2/initial-xv6/src/kernel/pipe.c:22-56 | an empty, open pipe |
| Pipe.Pipe.Put | XV6-2/initial-xv6/src/kernel/pipe.c:95 | one byte at the end |
| Pipe.Pipe.Get | XV6-2/initial-xv6/src/kernel/pipe.c:121 | one byte from the front |
| Pipe.Pipe.PipeWrite | XV6-2/initial-xv6/src/kernel/pipe.c:76-103 | one stay of pipewrite in the lock is a step of the machine: it stores a prefix of the bytes; how many, how it ends and whom it wakes |
| Pipe.Pipe.PipeRead | XV6-2/initial-xv6/src/kernel/pipe.c:105-130 | one stay of piperead is a step: it takes a prefix of the bytes in the pipe; how many, how it ends and whom it wakes; a failing copyout loses exactly one byte |
| Pipe.Pipe.PipeClose | XV6-2/initial-xv6/src/kernel/pipe.c:58-74 | closing one end wakes the other |
| Virtio.Conservation | XV6-2/initial-xv6/src/kernel/virtio_disk.c:155-213 | free descriptors plus three a request are the NUM descriptors; at most two requests |
| Virtio.Alloc3Exactly | XV6-2/initial-xv6/src/kernel/virtio_disk.c:199-213 | alloc3_desc fails exactly when two requests are in flight |
| Virtio.ChainIsOwn | XV6-2/initial-xv6/src/kernel/virtio_disk.c:184-197 | free_chain frees exactly the three descriptors of its request |
| Virtio.FollowsRequest | XV6-2/initial-xv6/src/kernel/virtio_disk.c:238-266 | a device that follows the descriptors finds the request as it was made |
| Virtio.DeviceFindsOffered | XV6-2/initial-xv6/src/kernel/virtio_disk.c:272-280 | the device's index differs from the ring's exactly when a request is offered, and it reads the oldest |
| Virtio.UsedEntryMatches | XV6-2/initial-xv6/src/kernel/virtio_disk.c:294-327 | every used entry that the handler reads is the head of an answered request with status 0 whose buffer still waits, across 16-bit wraparound |
| Virtio.StepKeeps | XV6-2/initial-xv6/src/kernel/virtio_disk.c:215-327 | every step of processes, device and handler keeps the invariant: descriptors and rings hold the requests in flight, each at one stage; the status is 0xff until the device has answered; info points to buffers of requests in flight only |
| Virtio.QueueIsSafe | XV6-2/initial-xv6/src/kernel/virtio_disk.c:215-327 | in every run of stays in the lock: the partition, at most two requests, nobody waits for descriptors that are there, who sleeps on a buffer is owed an answer |
| VirtioRuns.VirtioRunOf | XV6-2/initial-xv6/src/kernel/virtio_disk.c:215-327 | every interleaving of sleep, wakeup's loop, kill and a device that moves at any time, whose stays follow virtio_disk.c, is a run of Virtio, with the same memory and sleepers whenever vdisk_lock is free |
| VirtioRuns.EveryInterleavingIsSafe | XV6-2/initial-xv6/src/kernel/virtio_disk.c:215-327 | so in every such interleaving, whenever vdisk_lock is free: the invariant of the queue, the partition, at most two requests, and whoever sleeps or is about to waits for descriptors that are not there or for a buffer that is owed an answer |
| VirtioRuns.StayIsPiece | XV6-2/initial-xv6/src/kernel/virtio_disk.c:215-327 | a stay that follows virtio_disk.c, with the moves of the device during it, is a piece of a run |
| VirtioRuns.StayInLock | XV6-2/initial-xv6/src/kernel/virtio_disk.c:215-327 | and a step of a process that is awake, or a turn of the handler, is such a stay |
| Virtio.RequestServed | XV6-2/initial-xv6/src/kernel/virtio_disk.c:215-292 | the device moves exactly the requested block to or from exactly the requested buffer |
| Virtio.FinishFreesOwn | XV6-2/initial-xv6/src/kernel/virtio_disk.c:284-291 | a finished request gives back its own three descriptors without a panic |
| Virtio.DrainsAll | XV6-2/initial-xv6/src/kernel/virtio_disk.c:294-327 | virtio_disk_intr does not panic and clears the flag of exactly the answered requests |
| Virtio.Disk.constructor | XV6-2/initial-xv6/src/kernel/virtio_disk.c:61-153 | all descriptors free, rings empty |
| Virtio.Disk.AllocDesc | XV6-2/initial-xv6/src/kernel/virtio_disk.c:155-166 | the lowest free descriptor, -1 for none |
| Virtio.Disk.FreeDesc | XV6-2/initial-xv6/src/kernel/virtio_disk.c:168-182 | panics exactly for a free descriptor or one out of range |
| Virtio.Disk.FreeChain | XV6-2/initial-xv6/src/kernel/virtio_disk.c:184-197 | terminates; frees exactly the chain, or panics |
| Virtio.Disk.Alloc3Desc | XV6-2/initial-xv6/src/kernel/virtio_disk.c:199-213 | the three lowest free descriptors, or everything as it was |
| Virtio.Disk.DiskRw | XV6-2/initial-xv6/src/kernel/virtio_disk.c:215-282 | waits exactly without three free descriptors, otherwise posts the request |
| Virtio.Disk.DiskRwDone | XV6-2/initial-xv6/src/kernel/virtio_disk.c:284-291 | gives the descriptors back |
| Virtio.Disk.DiskIntr | XV6-2/initial-xv6/src/kernel/virtio_disk.c:294-327 | the loop is the function of Virtio.DrainsAll |
| Umalloc.FreedFacts | XV6-2/initial-xv6/src/user/umalloc.c:24-44 | the list after free covers exactly its old units and those of the block, ordered and fully coalesced |
| Umalloc.FreeKeeps | XV6-2/initial-xv6/src/user/umalloc.c:24-44 | free keeps order, coalescing, disjointness and that free and live units are exactly those from sbrk |
| Umalloc.TakeKeeps | XV6-2/initial-xv6/src/user/umalloc.c:74-85 | so does taking a block, whole or its tail, and the new block was not live |
| Umalloc.GrowKeeps | XV6-2/initial-xv6/src/user/umalloc.c:46-61 | so does what sbrk returns |
| Umalloc.StopsAtPlace | XV6-2/initial-xv6/src/user/umalloc.c:29-32 | the loop test of free holds at the block's place in address order and nowhere else |
| Umalloc.GrownFits | XV6-2/initial-xv6/src/user/umalloc.c:46-61 | after morecore a long enough block is at freep or right after it |
| Umalloc.Allocator.constructor | XV6-2/initial-xv6/src/user/umalloc.c:21-22 | nothing obtained yet |
| Umalloc.Allocator.Search | XV6-2/initial-xv6/src/user/umalloc.c:29-32 | terminates at the place of the block |
| Umalloc.Allocator.Free | XV6-2/initial-xv6/src/user/umalloc.c:24-44 | relinks the headers to the list of Umalloc.FreedFacts; the block is live no more |
| Umalloc.Allocator.Morecore | XV6-2/initial-xv6/src/user/umalloc.c:46-61 | 0 without effect when sbrk fails; otherwise at least 4096 fresh units are on the list |
| Umalloc.Allocator.Malloc | XV6-2/initial-xv6/src/user/umalloc.c:63-90 | terminates; NULL exactly when no block fits and sbrk fails, then without effect; otherwise a new live block of the size asked for, rounded up to 16 bytes and with its header; the tail of the first block after freep that is long enough; sbrk is called only when none is |
| Grep.Matchhere | XV6-2/initial-xv6/src/user/grep.c:83-95 | true exactly when the items of the pattern match at the beginning of the text |
| Grep.Matchstar | XV6-2/initial-xv6/src/user/grep.c:97-105 | true exactly when c* and then the pattern match there |
| Grep.Match | XV6-2/initial-xv6/src/user/grep.c:71-81 | true exactly when the text matches under the declarative meaning of ^ . * $ and literals |
| Grep.PrintLines | XV6-2/initial-xv6/src/user/grep.c:16-27 | prints exactly the matching lines of the buffer up to the last newline that strchr finds, and keeps the rest |
| Grep.GrepFile | XV6-2/initial-xv6/src/user/grep.c:10-34 | for any division of the input into reads: exactly the matching lines before the first line that does not fit the buffer or holds a NUL; that is everything if and only if nothing from there on matches |
| Grep.PrintsAllExactly | XV6-2/initial-xv6/src/user/grep.c:10-34 | the same condition about the output function |
| Grep.LongLineIsLost | XV6-2/initial-xv6/src/user/grep.c:10-34 | a line of 1023 characters that matches and is not printed |

## Left out

- LogProtocol.StepKeeps: a file system operation is any sequence of stores and log_write calls that passes every changed block to log_write before end_op and writes no block of the log; the fs.c operations are not plugged into it.
- LogSleep.NoOperationIsForgotten: the disk write that clears the log counts as part of the stay in which committing is cleared, and a crash ends the interleaving.
- LogLayout.CrashAtomicity: a block write is atomic, as the 124 bytes of the header are within one block; a torn write is not modelled.
- CowKernel.CowRefinesPrivate: exec is not a call of the run.
- CowKernel.CowRefinesPrivate: the private memory is told which calls succeed, because frames run out at other moments than with private memory; CowLimits.OutcomesExactly says which they are.
- Vm.Vm.Grow: growing into the trapframe page and beyond is excluded, because mappages panics there on a page that is already mapped.
- Vm.Vm.FreeWalk: the page-table pages of a process are the frames that it owns; that freewalk finds them along the tree is in PageTable.
- CowRuns.RunRefinesPrivate: a copyout that cannot spare the other processes is not part of the run; CowCopyout.CopyoutExactly says when that is, and CowLimits.CopyoutEscapes shows one.
- Vm: page-table pages are counted per process, and need says how many of them a walk finds missing; PageTable models the tree itself, in one address space, and CowLimits.ForkNeeds puts its numbers in for fork.
- PageTable.PageTable.Mappages: perm must contain R, W or X and not PTE_V, as in every call in the kernel; without them a leaf would read as a pointer.
- PageTable: a user mapping is a page number and a PTE; the copying of PTE flags in uvmcopy is in Cow.
- FsFile.WriteiRefines: copyin does not fail; inodes in memory and on disk are the same, so iget, ilock, iupdate and the inode cache are not modelled.
- FsFile.ReadiReads: copyout does not fail.
- FsRoom.FileWriteExactly: a write of bytes that end beyond the largest size is cut at a whole chunk, as in the code; a write by several processes at once is not modelled.
- FsCalls.FilesRefine: directories, links, paths, device files and ialloc; a run acts on a fixed set of inodes, and crashes are treated in the log modules only.
- Bcache.CacheAgreesWithDisk: callers must write or pin a changed buffer before brelse; one disk request is one step, see Virtio for the driver.
- Bcache.RecyclesOldest: only the process that holds a buffer calls bunpin, as install_trans does (log.c:73-82).
- Bcache.Bcache.Bget: dev is not 0; that is the key of buffers that have never been used, and bget for device 0 would find them.
- Mlfq.NoStarvation: a tick is one call of update_time; usertrap may make two for one interrupt, so ticks are not wall time. One selection is atomic, and wtime is unbounded rather than 32 bits.
- Mlfq.Scheduler.Schedule: the per-process locks that the scheduler takes one after the other are not modelled.
- WaitExit.NoLostWakeup: RUNNABLE and RUNNING are one state, taking and releasing one p->lock within a loop is one step, pids and exit status are left out, and a failing copyout in wait leaves the zombie for the next call.
- SleepLock.AtMostOneHolder: only the holder calls releasesleep, which the source does not test.
- Pipe.PipeIsFifo: the two file structures that share a pipe, and freeing it with the second close.
- VirtioRuns.VirtioRunOf: what one call of virtio_disk_rw changes between two sleeps is one change of the memory; the device reads a chain only after its index has been put into the ring.
- Virtio.QueueIsSafe: the device is a conforming one that answers every request with status 0; an error status makes the handler panic. MMIO set-up, feature negotiation and memory fences are left out; one sleep lock a buffer keeps two requests for the same buffer apart.
- Umalloc.Allocator.Malloc: fewer than 2^27 units are asked for, so that the int argument of sbrk does not overflow; sbrk returns addresses aligned to a header, above base, that grow; use of freed or foreign pointers is outside the contract.
- Grep.GrepFile: file names and several files; a read error ends the input; the pattern holds no NUL, since it is a C string.
- Spinlocks are atomic steps and swtch is a state change; push_off, memory fences, TLB flushes and trampoline code are not modelled.
- The PBS scheduler of XV6-2: its counters never advance, because clockintr does not call update_time, so nothing deep holds of it.
- First-come first-served and round-robin scheduling, read counts, setpriority and alarms: they would only add easy members.
- exec, path walking, directory system calls, the shell and the other user programs, uart, console, plic and printf.
