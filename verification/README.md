# Verified models of the transfer protocol, the shell and xv6

This project models the parts of the repository that are hardest to get right, and proves what they
are for. Each group of files follows one or two source files. A specification (functions on values,
and a step machine where several processes interleave) carries the theorems; a class or a set of
methods, named `...Code` or after the machine it models, has the source's own loops and in-place
updates and is proved equal to that specification.

| files | source | main results |
|---|---|---|
| `Disk`, `RedoLog`, `LogOps`, `LogRuns`, `LogAdmission`, `LogHalt`, `LogCode` | `kernel/log.c` | crash atomicity and durability over every run; the log reservation; exactly who is admitted; no lost sleeper |
| `CacheOps`, `CommitBuffers`, `CommitRoom`, `CommitHalts` | `kernel/log.c`, `kernel/bio.c` | the commit through the buffer cache: what it writes, and exactly when it runs out of buffers |
| `BufferCache`, `CacheRuns`, `CacheRoom`, `CacheFull`, `BufferCode` | `kernel/bio.c` | `bread` returns the latest contents; the victim is the oldest unused buffer; when there is none |
| `PageTable`, `PageTableSteps`, `VmSpec`, `PageNeeds`, `UserMemory`, `UserCopy`, `VmFree`, `VmPanic`, `PteCodec`, `Vm` | `kernel/vm.c`, `kernel/kalloc.c` | the three-level tree refines a flat map; rollback; every page has exactly one owner; how many free pages it takes |
| `FileBlocks`, `FileSteps`, `FileMap`, `FileIo`, `FileTrunc`, `FileRuns`, `FileLog`, `FileTight`, `FileCover`, `FileWrite`, `FileCrash`, `FileCommit`, `FileCode` | `kernel/fs.c`, `kernel/file.c` | files are byte sequences; no block is lost or shared; a write chunk fits its reservation, tightly; after a crash the disk holds an orderly file system |
| `FreeList`, `MallocRuns`, `MallocCode` | `user/umalloc.c` | the ordered, coalesced free list; units are conserved |
| `Sham`, `ShamRuns`, `ShamDrift`, `ShamCode`, `ShamTurn`, `ShamProgress` | `networking/client.c`, `networking/server.c` | safety of the transfer over a lossy network; what each turn sends and stores; when it can still succeed |
| `ExitWait`, `ExitWaitInv`, `ExitWaitRuns`, `ExitWaitFork`, `ExitWaitCode`, `ExitWaitAlone` | `kernel/proc.c` | no lost wakeup between exit and wait; zombies are reaped once; what fork, exit and wait achieve; when a kill is missed |
| `Virtio`, `VirtioRuns`, `VirtioSleep`, `VirtioCode` | `kernel/virtio_disk.c` | descriptors partition; requests return only when done, and reads see writes; the rings never overrun; no caller sleeps for good |
| `PipeRuns`, `PipeTurns`, `PipeCode` | `kernel/pipe.c` | first-in first-out across counter wrap; when sleepers may sleep; how each turn ends |
| `ShellGrammar`, `ShellParser`, `ShellSplit`, `ShellExecCode` | `shell/src/parser.c`, `shell/src/executor.c` | the validator decides the grammar; the two parsers agree |
| `Grep`, `GrepCode` | `user/grep.c` | the meaning of patterns; the chunked reader |
| `Mlfq`, `MlfqCode` | `xv6/kernel/mlfq_scheduler.c` | valid decisions; what a round does; who runs between two boosts |

How concurrency and faults are modelled: a run is a list of states, each one step after the one
before, for every interleaving. For the log a step is one disk write, and a crash may fall before
any of them; a panic is one more crash. For exit and wait a step is what a process does between two
points where another may interfere. For pipes it is a whole turn under the pipe's lock. The network
may drop, duplicate, delay and reorder, and the disk device may complete requests in any order. A
physical page, disk block or heap unit carries its one owner in the model's state, so that
conservation and absence of sharing are statements about that map.

Where the code does not do what one might expect, the code is followed, and a lemma says exactly
when it does:

- `log_write` tests "log full" before it looks for the block in the log, so a repeated write to a full
  log halts the machine (`LogHalt.FullLogHalts`). Appends always find room (`LogRuns.AppendFindsRoom`).
- NBUF equals LOGBLOCKS, so `bget` can run out: it panics exactly when every buffer is in use for
  another block (`CacheRuns.VictimIsOldest`; `CacheFull.BgetRunsOut` is a run). A full log pins every
  buffer, so a commit of LOGBLOCKS blocks halts at its first `bread`, and no smaller one does while nobody
  else uses buffers (`CommitRoom.CommitIff`, `CommitHalts.FullCommitHalts`). In the runs of `LogRuns` such a
  halt is a crash.
- `alloc3_desc` gives back what it took when it fails, and so wakes the others who wait for descriptors:
  two of them can wake each other for as long as one or two descriptors are free (`VirtioSleep.TwoSpin`).
- `kwait` looks at the mark of kill before it holds the process's own lock. A kill that comes after that finds
  nobody asleep, and the killed process sleeps on until a child exits or it is killed again (`ExitWaitAlone.KillIsMissed`); exactly
  the runs with such a kill show it (`ExitWaitFork.KilledSleepsIff`).
- `uvmfree` panics exactly when a page is mapped at or above PGROUNDUP(sz) (`VmFree.UvmfreeFrees`, `VmPanic.LeftPagePanics`).
- The sender indexes its window relative to the moving base, so slot i need not hold the packet at base
  + i * SHAM_DATA_SIZE (`ShamDrift.SlotsDrift`). While packets are in flight it does so for every i exactly
  when slot 0 holds the one at the base (`ShamRuns.SlotsInStepIff`), and the slots fall out of step exactly
  when an acknowledgment moves the base with packets still in flight behind it
  (`ShamRuns.SlotsFallOutIff`). Every filled slot carries the bytes of its own sequence number.
- A writer that is killed in mid-call returns without waking readers, so a reader can sleep on a pipe
  that is not empty (`PipeRuns.KilledWriterForgetsReader`). A step brings that about exactly when it is
  such a turn, after at least one byte and with a reader asleep (`PipeRuns.ReaderForgottenIff`); runs
  without one, and only those, never show it (`PipeRuns.ReadersSleepWhenEmpty`).
- `malloc` passes the bytes it wants to `sbrk(int)`. A request of more than 2147483616 bytes that has to
  grow the heap gets less memory than its block claims, and only such a request does
  (`MallocRuns.RunsInOrderIff`, `MallocRuns.RoomIsRealIff`, `MallocRuns.HugeRequestShares`).
- `grep` stops reading at a line that does not fit its buffer. It prints all matching lines if and only
  if none is that line or comes after it (`Grep.PrintsAllIff`, `Grep.LongLineHides`).
- The shell's append flag stays set once any `>>` is seen (`ShellSplit.AppendMeetsLastOperator`,
  `ShellSplit.AppendOutlives`).
- The documentation of the MLFQ scheduler (`xv6/README.md:64-68`, `xv6/README.md:255-282`) speaks of
  five queues, other quanta and aging. The code has four queues, slices of 1, 4, 8 and 16 ticks and
  a boost every 48 ticks; the code is modelled. Processes behind the first 48 starve
  (`Mlfq.LateOnesStarve`), although the boost is there to prevent starvation.

## Model

| member | source | states |
|---|---|---|
| LogRuns.CrashAtomicity | xv6/xv6-source/kernel/log.c:65-204 | in every state of every run of concurrent operations, with crashes between any two disk writes and inside recovery, finishing recovery yields the home blocks of exactly the batches committed so far, in order |
| LogRuns.CommitsAreDurable | xv6/xv6-source/kernel/log.c:148-204 | no later step or crash takes a committed batch away, and a batch whose committing `end_op` has returned is among the committed ones |
| LogRuns.OperationsAreWhole | xv6/xv6-source/kernel/log.c:126-176 | all writes of an operation are in one batch, in the order they were issued, and in no other |
| LogRuns.AppendFindsRoom | xv6/xv6-source/kernel/log.c:216-236 | with at most MAXOPBLOCKS distinct blocks per operation a `log_write` that appends finds n < LOGBLOCKS; it panics exactly when the log is full, and then only on a block that is in it already |
| LogRuns.LogSpaceAndSleep | xv6/xv6-source/kernel/log.c:126-176 | in every state of every run the reservations fit, and nobody sleeps in `begin_op` unless a commit runs, or an operation is outstanding and there is no room for one more |
| LogAdmission.BeginAdmitsIff | xv6/xv6-source/kernel/log.c:128-143 | in every state of every run outside recovery `begin_op` admits its caller if and only if no commit runs and ten more blocks fit in the log's thirty on top of those logged and of ten for every operation under way; otherwise the caller sleeps; nothing else changes |
| LogAdmission.EndLeaves | xv6/xv6-source/kernel/log.c:148-176 | in every state of every run `end_op` does not panic: the last operation out starts the commit of exactly the logged blocks with their cached contents, any other wakes everybody asleep in `begin_op` |
| LogRuns.StepKeepsInv | xv6/xv6-source/kernel/log.c:65-236 | every step, crash and recovery step keeps the invariant that ties disk, log header, pinned buffers and committed batches |
| LogHalt.FullLogHalts | xv6/xv6-source/kernel/log.c:221-228 | a run in which a repeated `log_write`, allowed by the reservation, halts because "log full" is tested before absorption |
| RedoLog.RecoveryIdempotent | xv6/xv6-source/kernel/log.c:118-124 | recovery cut off after any of its writes and started again gives what an uninterrupted one gives |
| RedoLog.BeforeCommitPoint | xv6/xv6-source/kernel/log.c:180-204 | before the header write of a commit neither a home block nor the header has changed |
| RedoLog.AfterCommitPoint | xv6/xv6-source/kernel/log.c:195-204 | from the header write on recovery yields every logged block, wherever the commit stops |
| RedoLog.CommitCompletes | xv6/xv6-source/kernel/log.c:195-204 | a finished commit has installed every logged block and cleared the header |
| LogOps.LogWriteConsistent | xv6/xv6-source/kernel/log.c:216-236 | append or absorption keeps header blocks distinct and each of them pinned with its newest data |
| LogCode.Log.Commit | xv6/xv6-source/kernel/log.c:195-204 | performs exactly the writes of the transaction in memory, in that order, and leaves memory and pins empty; with NBUF blocks it panics before it writes anything, and only then |
| LogCode.Log.WriteLog | xv6/xv6-source/kernel/log.c:180-192 | copies block `tail` from the cache to log block `tail`, for every tail; not `ok` exactly when NBUF blocks are pinned, where the first `bread` panics |
| LogCode.Log.InstallTrans | xv6/xv6-source/kernel/log.c:67-84 | copies every log block to its home block, in order, and unpins it unless recovering; not `ok` exactly where `bread` finds no buffer |
| LogCode.Log.ReadHead | xv6/xv6-source/kernel/log.c:88-98 | takes count and block numbers from the header block |
| LogCode.Log.WriteHead | xv6/xv6-source/kernel/log.c:104-115 | writes the header block that encodes the list in memory; not `ok` exactly when NBUF blocks are pinned |
| LogCode.Log.RecoverFromLog | xv6/xv6-source/kernel/log.c:118-124 | performs exactly the recovery writes of the disk it finds, and never runs out of buffers |
| LogCode.Log.BeginOp | xv6/xv6-source/kernel/log.c:128-143 | admits a caller exactly when no commit runs and n + (outstanding + 1) * MAXOPBLOCKS is at most LOGBLOCKS, and counts it; else puts it to sleep |
| LogCode.Log.LogWrite | xv6/xv6-source/kernel/log.c:216-236 | appends and pins, or absorbs; not `ok` exactly where the source panics |
| LogCode.Log.EndOp | xv6/xv6-source/kernel/log.c:148-176 | the last operation out commits and wakes the sleepers, or panics over a commit of NBUF blocks; the others only wake them |
| CacheRuns.BreadReturnsLatest | xv6/xv6-source/kernel/bio.c:59-137 | in every run in which modified buffers are logged or written before release, a process that `bread` has given a buffer sees the latest contents, alone; no two buffers hold one block |
| CacheRuns.VictimIsOldest | xv6/xv6-source/kernel/bio.c:59-89 | the victim is the least recently released unused buffer, never pinned; `bget` panics exactly when every buffer is in use for another block |
| CacheFull.BgetRunsOut | xv6/xv6-source/kernel/bio.c:59-89 | a run of thirty `bget` calls after which the next one panics |
| CacheRoom.BgetPanicsIff | xv6/xv6-source/kernel/bio.c:59-89 | `bget` panics if and only if the pinned buffers and those that processes hold are all NBUF and none of them holds the block |
| CacheOps.BreadGives | xv6/xv6-source/kernel/bio.c:91-103 | `bread` of a block nobody holds gives its latest contents and keeps every pin, or panics exactly then |
| CommitRoom.CommitIff | xv6/xv6-source/kernel/log.c:180-204 | with nobody else using buffers, `commit()` panics if and only if it has NBUF blocks, and then at its first `bread`; otherwise through the buffer cache it writes exactly what the transaction says, and unpins everything |
| CommitHalts.FullCommitHalts | xv6/xv6-source/kernel/log.c:180-192 | a run of thirty `log_write` calls after which `commit()` panics |
| CacheRuns.RecycledIsClean | xv6/xv6-source/kernel/bio.c:59-89 | an unused buffer is not pinned and holds nothing that the disk does not |
| CacheRuns.StepKeepsInv | xv6/xv6-source/kernel/bio.c:59-151 | bget, sleeplock, bread, bwrite, pins and brelse keep the cache invariant |
| BufferCache.BgetPicks | xv6/xv6-source/kernel/bio.c:59-89 | the buffer returned holds the block with one more reference, or was unused and is now empty for it; nothing else changes |
| BufferCache.BrelseListed | xv6/xv6-source/kernel/bio.c:117-137 | the release order stays a permutation of all buffers |
| BufferCode.Bcache.constructor | xv6/xv6-source/kernel/bio.c:37-53 | `binit`: a ring of all buffers, the last one first, none in use |
| BufferCode.Bcache.Bget | xv6/xv6-source/kernel/bio.c:59-89 | over the prev/next links: the specified buffer, or a panic and no change |
| BufferCode.Bcache.Brelse | xv6/xv6-source/kernel/bio.c:117-137 | over the links: one reference fewer, and an unused buffer moves to the head |
| BufferCode.Bcache.TakeOut | xv6/xv6-source/kernel/bio.c:125-127 | unlinking removes exactly that buffer from the ring |
| BufferCode.Bcache.PushFront | xv6/xv6-source/kernel/bio.c:128-131 | linking puts the buffer behind the head and keeps the ring |
| BufferCode.Bcache.Bpin | xv6/xv6-source/kernel/bio.c:140-144 | one reference more, nothing else |
| BufferCode.Bcache.Bunpin | xv6/xv6-source/kernel/bio.c:147-151 | one reference fewer, nothing else |
| VmSpec.WalkGrows | xv6/xv6-source/kernel/vm.c:98-115 | `walk` changes no translation and no owner but that of free pages that become interior tables; without `alloc` it changes nothing |
| VmSpec.WalkFinds | xv6/xv6-source/kernel/vm.c:98-115 | the entry found is the flat map's; none is found only where the map has none, and with `alloc` only when memory has run out |
| VmSpec.MappagesMaps | xv6/xv6-source/kernel/vm.c:146-174 | exactly the given pages get exactly the given translations, up to the page where memory ran out |
| VmSpec.UvmunmapUnmaps | xv6/xv6-source/kernel/vm.c:193-212 | exactly the range is removed, exactly its user pages are freed, and no other page table is disturbed |
| UserMemory.UvmallocGains | xv6/xv6-source/kernel/vm.c:217-240 | either exactly the new pages, zeroed, each on its own page; or the old user mapping with nothing lost. It succeeds if and only if there is a free page for each new one and for each table that they lack. Asked to shrink it does nothing |
| UserMemory.DeallocShrinks | xv6/xv6-source/kernel/vm.c:247-258 | takes away exactly the pages from the smaller size, rounded up, to the larger, and returns their user pages; asked to grow it does nothing |
| UserMemory.DeallocUndoesAlloc | xv6/xv6-source/kernel/vm.c:247-258 | shrinking after growing gives back the old address space |
| UserMemory.VmfaultGains | xv6/xv6-source/kernel/vm.c:453-473 | adds that zeroed page, readable and writable by the user and not executable, and nothing else if and only if the fault is below the size, the page unmapped, and there are free pages for it and for the tables missing on its way; any other fault changes nothing |
| UserCopy.UvmcopyCopies | xv6/xv6-source/kernel/vm.c:297-324 | the child gets exactly the parent's pages, flags and contents on pages that were free; or none of them. It succeeds if and only if there is a free page for each copy and for each table that the child lacks for them |
| VmSpec.WalkNeeds | xv6/xv6-source/kernel/vm.c:98-115 | told to allocate, succeeds if and only if there are as many free pages as tables missing on the way, and takes that many |
| UserMemory.MapNewNeeds | xv6/xv6-source/kernel/vm.c:229-237 | one page more is mapped if and only if there is a free page for it and one for each table missing on its way |
| PageNeeds.MissingIs | xv6/xv6-source/kernel/vm.c:98-115 | the tables missing on the way to a page are those of the two levels that no page of the address space is |
| PageNeeds.NeededOneLess | xv6/xv6-source/kernel/vm.c:98-115 | mapping one page of a set takes from what the set needs one page and the tables it adds, which then serve the others |
| VmPanic.LeftPagePanics | xv6/xv6-source/kernel/vm.c:283-288 | a process with page 5 mapped, and `uvmfree(pagetable, 5 * PGSIZE)` panics |
| UserCopy.NothingShared | xv6/xv6-source/kernel/vm.c:297-324 | two virtual pages that lead to one physical page are the same page of the same process |
| VmFree.FreewalkPanics | xv6/xv6-source/kernel/vm.c:263-278 | `freewalk` panics exactly when some page is still mapped |
| VmFree.UvmfreeFrees | xv6/xv6-source/kernel/vm.c:283-288 | panics exactly when a page is mapped at or above PGROUNDUP(sz); otherwise every page of the address space is free afterwards, once, and nothing else has changed |
| PageTableSteps.PutLeafTranslates | xv6/xv6-source/kernel/vm.c:146-174 | writing a level-0 entry changes the translation of the one page it serves, in one address space |
| PageTableSteps.AddTableTranslates | xv6/xv6-source/kernel/vm.c:98-115 | a new interior table changes no translation |
| PageTableSteps.TranslateFrame | xv6/xv6-source/kernel/vm.c:98-115 | an address space whose own tables are unchanged translates as before |
| PteCodec.EncodeDecode | xv6/xv6-source/kernel/riscv.h:340-373 | every 64-bit word is the encoding of one entry: bits 0 to 4 are V, R, W, X and U, and the page number is above bit 10 (section 4.4 of the RISC-V Privileged Architecture, Sv39) |
| PteCodec.DecodeEncode | xv6/xv6-source/kernel/riscv.h:340-373 | decoding gives back every entry that fits the format |
| PteCodec.JunkWords | xv6/xv6-source/kernel/kalloc.c:54-80 | the junk of `kfree` and `kalloc` reads as valid entries |
| Vm.Machine.Kalloc | xv6/xv6-source/kernel/kalloc.c:69-82 | pops the head of the free list and fills the page with junk; 0 exactly when the list is empty |
| Vm.Machine.Kfree | xv6/xv6-source/kernel/kalloc.c:47-63 | fills the page with junk and pushes it |
| Vm.Machine.Walk | xv6/xv6-source/kernel/vm.c:98-115 | the in-place walk is the specified one |
| Vm.Machine.Mappages | xv6/xv6-source/kernel/vm.c:146-174 | the in-place loop is the specified one, and succeeds exactly when all pages are mapped |
| Vm.Machine.Uvmunmap | xv6/xv6-source/kernel/vm.c:193-212 | the in-place loop is the specified one, with `do_free` or without |
| Vm.Machine.Uvmalloc | xv6/xv6-source/kernel/vm.c:217-240 | the in-place loop, with its rollback, is the specified one |
| Vm.Machine.Uvmdealloc | xv6/xv6-source/kernel/vm.c:247-258 | the in-place operation is the specified one |
| Vm.Machine.Uvmcopy | xv6/xv6-source/kernel/vm.c:297-324 | the in-place loop, with its rollback, is the specified one |
| Vm.Machine.Vmfault | xv6/xv6-source/kernel/vm.c:453-473 | the in-place operation is the specified one |
| Vm.Machine.Freewalk | xv6/xv6-source/kernel/vm.c:263-278 | the recursion that clears entries as it goes is the specified one, panics included |
| Vm.Machine.Uvmfree | xv6/xv6-source/kernel/vm.c:283-288 | the in-place operation is the specified one, panics included |
| FileBlocks.BitmapIsExact | xv6/xv6-source/kernel/fs.c:66-106 | a bitmap bit is set exactly when its block is metadata, just allocated, or named by a slot of an inode or indirect block, and by one only |
| FileRuns.NoBlockLostOrShared | xv6/xv6-source/kernel/fs.c:66-562 | after any sequence of operations, disk full or not: bits exact, no block named twice, and "freeing free block" never reached |
| FileCrash.RecoversInOrder | xv6/xv6-source/kernel/log.c:65-236 | after any crash and recovery the home blocks are those of a file system in order, the one that exactly the operations of the committed batches have made, however their `log_write` calls interleave; and a bitmap bit on the disk is set exactly when its block is metadata or named by one slot |
| FileCrash.BatchApplies | xv6/xv6-source/kernel/fs.c:66-562 | performing the writes of a batch of any operations, interleaved in any way, takes the home blocks from the file system before them to the one after them |
| FileCrash.SerialBatch | xv6/xv6-source/kernel/fs.c:66-562 | operations that log one after the other make up such a batch |
| FileCommit.BothOrNone | xv6/xv6-source/kernel/log.c:126-204 | a run that commits two overlapping operations on one inode block; recovery right behind the header write gives both |
| FileRuns.OpKeepsInv | xv6/xv6-source/kernel/fs.c:200-562 | every operation keeps the file system in order and does not panic |
| FileMap.BmapGrows | xv6/xv6-source/kernel/fs.c:406-444 | the file's block, or a new zeroed one; no file reads differently, no used block changes hands, and it fails only on a full disk |
| FileMap.BmapSettled | xv6/xv6-source/kernel/fs.c:406-444 | `bmap` leaves no block that is marked but named by nothing, even when it fails half way |
| FileIo.WriteiReplaces | xv6/xv6-source/kernel/fs.c:529-562 | replaces exactly the bytes it reports, extending the file if needed; -1 exactly for an offset behind the end or beyond MAXFILE; short only on a full disk; touches no other file |
| FileIo.ReadiReturns | xv6/xv6-source/kernel/fs.c:495-519 | exactly the slice clipped to the size, nothing if the range wraps around 32 bits, and no change |
| FileIo.ReadAfterWrite | xv6/xv6-source/kernel/fs.c:495-562 | a read returns what was written |
| FileTrunc.ItruncFrees | xv6/xv6-source/kernel/fs.c:449-476 | frees exactly the blocks of its inode and never a free one |
| FileTrunc.IputFrees | xv6/xv6-source/kernel/fs.c:338-363 | the last reference to an unlinked file frees its blocks and its inode; any other changes nothing |
| FileTrunc.IallocTakes | xv6/xv6-source/kernel/fs.c:200-220 | an inode that was free, or none exactly when all are taken; no other changes |
| FileBlocks.WordPut | xv6/xv6-source/kernel/fs.c:421-441 | writing entry j of an indirect block changes entry j and no other |
| FileLog.ChunkFitsInLog | xv6/xv6-source/kernel/file.c:149-173 | one chunk logs at most MAXOPBLOCKS distinct blocks whatever its alignment, when every block below the size is there |
| FileTight.ChunkFillsReservation | xv6/xv6-source/kernel/file.c:149-173 | an unaligned chunk across the direct/indirect boundary logs exactly ten |
| FileCover.EveryChangeIsLogged | xv6/xv6-source/kernel/fs.c:66-562 | every block that an operation changes is passed to `log_write` |
| FileWrite.FilewriteWrites | xv6/xv6-source/kernel/file.c:149-173 | a prefix of the data is in the file at the old offset, all of it unless the file is too large or the disk full, and every transaction fits in the log |
| FileWrite.FilewriteBehindEnd | xv6/xv6-source/kernel/file.c:149-173 | from an offset behind the end nothing is stored and nothing changes |
| FileCode.Volume.BallocBlock | xv6/xv6-source/kernel/fs.c:67-89 | the first free block, marked and zeroed; 0 exactly when none is free |
| FileCode.Volume.BfreeBlock | xv6/xv6-source/kernel/fs.c:93-106 | clears the bit; not `ok` exactly where the source panics |
| FileCode.Volume.BmapBlock | xv6/xv6-source/kernel/fs.c:406-444 | the in-place operation is the specified one |
| FileCode.Volume.TruncateInode | xv6/xv6-source/kernel/fs.c:449-476 | both loops in place are the specified ones |
| FileCode.Volume.PutInode | xv6/xv6-source/kernel/fs.c:338-363 | the in-place operation is the specified one |
| FileCode.Volume.AllocInode | xv6/xv6-source/kernel/fs.c:200-220 | the scan is the specified one |
| FileCode.Volume.ReadFile | xv6/xv6-source/kernel/fs.c:495-519 | the loop is the specified one |
| FileCode.Volume.WriteFile | xv6/xv6-source/kernel/fs.c:529-562 | the loop is the specified one |
| FileCode.Volume.WriteInChunks | xv6/xv6-source/kernel/file.c:149-173 | the loop over transactions is the specified one, and reports success exactly when all was written |
| FreeList.InsertOrdered | xv6/xv6-source/user/umalloc.c:25-44 | `free` keeps the list in address order from `base`, with no two blocks touching |
| FreeList.InsertFrees | xv6/xv6-source/user/umalloc.c:25-44 | the units that become free are exactly those of the block |
| FreeList.TakeFrees | xv6/xv6-source/user/umalloc.c:74-84 | the units handed out are exactly those no longer free |
| FreeList.SearchMisses | xv6/xv6-source/user/umalloc.c:73-86 | one round without success means that no free block is large enough |
| MallocRuns.NothingLostOrShared | xv6/xv6-source/user/umalloc.c:25-90 | after any sequence of calls in which no `malloc` grows the heap for more than 2147483616 bytes, every unit from `sbrk` is free or in exactly one allocated block, and the list is ordered and coalesced |
| MallocRuns.StepKeepsInv | xv6/xv6-source/user/umalloc.c:25-90 | a call keeps the arena in order, every unit from `sbrk` free or allocated and no other, if and only if it is not such a `malloc` |
| MallocRuns.RunsInOrderIff | xv6/xv6-source/user/umalloc.c:25-90 | all states of a run are in order if and only if it has no such call |
| MallocRuns.SbrkAsksIff | xv6/xv6-source/user/umalloc.c:47-54 | the int that `sbrk` gets is the number of bytes meant if and only if the request is of at most 2147483616 bytes; otherwise fewer units are granted |
| MallocRuns.RoomIsRealIff | xv6/xv6-source/user/umalloc.c:64-90 | all of the block returned is memory that `sbrk` granted if and only if the call is not such a `malloc` |
| MallocRuns.HugeRequestShares | xv6/xv6-source/user/umalloc.c:47-90 | `malloc(0xFFFFFFFF)` asks `sbrk` for 16 bytes and returns a block of 4 GiB; the next `malloc(1)` returns a block inside it |
| MallocRuns.MallocAnswers | xv6/xv6-source/user/umalloc.c:64-90 | fails only when `sbrk` does and no block was large enough; what it returns is new and its header has the size asked for, to the unit |
| MallocRuns.MallocTakes | xv6/xv6-source/user/umalloc.c:64-90 | next fit: the block taken is the first one round the list from behind `freep` that is large enough; what is returned is its last units, the rest stays, and `freep` is the block before it |
| MallocRuns.FreeLeavesFreep | xv6/xv6-source/user/umalloc.c:25-44 | `freep` is left at the last block that starts below the one freed |
| MallocRuns.MoreCoreSuffices | xv6/xv6-source/user/umalloc.c:47-90 | after one `morecore` the search succeeds |
| MallocCode.FreeLinks | xv6/xv6-source/user/umalloc.c:30-42 | relinking in place is insertion into the ordered list |
| MallocCode.Heap.Free | xv6/xv6-source/user/umalloc.c:25-44 | the search ends, and the relinked list is the specified one |
| MallocCode.Heap.MoreCore | xv6/xv6-source/user/umalloc.c:47-61 | passes the 32-bit argument to `sbrk`; the new core, as large as `nu` says, is in the list, or nothing has changed |
| MallocCode.Heap.Malloc | xv6/xv6-source/user/umalloc.c:64-90 | the block and list specified, with at most one call of `morecore`, and the argument that `sbrk` gets |
| ShamRuns.TransferIsSafe | networking/client.c:165-265 | over a network that drops, duplicates and reorders: the buffer is a prefix of the file, the base never passes what is stored, filled slots carry the file bytes at their sequence number, for files up to 10 MB |
| ShamRuns.FinishedMeansComplete | networking/server.c:163-232 | `send_file` returning 0, and a FIN reaching the data loop, each imply that the server has the whole file |
| ShamRuns.TenInFlight | networking/client.c:194-217 | packets in flight from the window base on start at one of ten places |
| ShamRuns.SlotsInStepIff | networking/client.c:237-259 | while packets are in flight, every slot i in the window holds the packet at base + i * SHAM_DATA_SIZE if and only if slot 0 holds the packet at the base, in every state of every run |
| ShamRuns.SlotsFallOutIff | networking/client.c:201-242 | the slots fall out of step at a step if and only if it is an acknowledgment that moves the base while packets behind it are in flight |
| ShamRuns.SlotsInStepAtFirst | networking/client.c:237-259 | so they are in step until the base first moves |
| ShamDrift.SlotsDrift | networking/client.c:201-242 | a run after which a packet in flight is in no slot |
| ShamProgress.ServerStores | networking/server.c:168-232 | in every state of every run in which the server receives: a data packet at 101 + |buffer| that is not dropped is appended whole, however short, and acknowledged up to the new end; a FIN finds the whole file, is answered by an ACK and a FIN and ends the transfer; every other packet changes nothing and is not answered |
| ShamProgress.ServerShakes | networking/server.c:113-165 | the first packet of every run is the SYN, which a SYN-ACK answers; after it the first packet with the ACK flag starts the transfer at 101, and any other makes the server refuse |
| ShamProgress.ClientConnects | networking/client.c:126-302 | the only answer to the SYN that can arrive is the SYN-ACK, upon which the client acknowledges and starts at 101; its FIN carries the number behind the last byte of the file |
| ShamProgress.CanSucceedIff | networking/client.c:126-302 | if nothing sent is lost for good: from every state of every run some continuation ends with `send_file` returning 0 and the whole file at the server, if and only if the client has not given up and the server has not refused, or had no byte to get |
| ShamRuns.StepKeepsInv | networking/client.c:126-302 | every send, acknowledgment, retransmission and network step keeps the invariant |
| ShamCode.TurnLeads | networking/client.c:192-265 | one turn of the sender's loop, with any answer and any set of expired timers, is a sequence of steps of the system |
| ShamTurn.SendAllIs | networking/client.c:194-217 | the new packets of a turn are the next ones of the file, 1024 bytes each but the last, each in its window slot with no retry counted; they stop only at the end of the file or with ten packets' worth in flight |
| ShamTurn.ScanIs | networking/client.c:237-259 | of the slots in use whose timers have run out, exactly those up to the first that has been sent again ten times are sent again, in order, and count one retry more; the client gives up if and only if there is such a slot; nothing else changes |
| ShamTurn.TurnIs | networking/client.c:192-265 | a turn: those new packets, then the base at the greater of itself and the acknowledgment, then those packets again; success exactly when nobody gave up, the file has been read and all of it is acknowledged |
| ShamCode.DataFits | networking/server.c:217-222 | what arrives in order never overruns `recv_buffer` |
| ShamCode.Sender.TakeTurn | networking/client.c:192-265 | over the globals and the window array: the turn that `ShamTurn.TurnIs` describes, with the packets sent |
| ShamCode.Sender.SendNewPackets | networking/client.c:194-217 | fills the window and sends the new packets, as `ShamTurn.SendAllIs` describes |
| ShamCode.Sender.HandleAnswer | networking/client.c:224-235 | a cumulative acknowledgment moves the base forward only |
| ShamCode.Sender.RetransmitLate | networking/client.c:237-259 | the scan that `ShamTurn.ScanIs` describes: late slots are sent again in order, up to one that SHAM_MAX_RETRIES forbids |
| ShamCode.Receiver.TakeData | networking/server.c:168-232 | over the receive buffer: the step that `ShamProgress.ServerStores` describes |
| ShamCode.Receiver.TakeHandshake | networking/server.c:113-165 | the handshake, packet by packet |
| ExitWaitRuns.NoLostWakeup | xv6/xv6-source/kernel/proc.c:260-415 | whenever `wait_lock` is free no process sleeps in `kwait` with a zombie child, and no parent pointer names an unused slot or a zombie |
| ExitWaitRuns.ReapedOnce | xv6/xv6-source/kernel/proc.c:371-415 | a process id that `kwait` has returned belongs to no process any more |
| ExitWaitRuns.StepKeepsInv | xv6/xv6-source/kernel/proc.c:260-611 | every interleaved step of fork, exit, wait, sleep, wakeup and kill keeps the invariant |
| ExitWaitFork.UsedIffForking | xv6/xv6-source/kernel/proc.c:260-305 | in every state of every run a slot is USED if and only if some process is inside `kfork` with that slot as its child, and then it is one process |
| ExitWaitAlone.KforkAlone | xv6/xv6-source/kernel/proc.c:260-305 | the steps of `kfork`, uninterrupted, make the unused slot a RUNNABLE process with the next process id, the caller as parent and no mark of kill; every other slot and the caller are as before and `wait_lock` is free |
| ExitWaitAlone.KexitAlone | xv6/xv6-source/kernel/proc.c:327-366 | the steps of `kexit`, uninterrupted, do to the table what the method does, leave `wait_lock` free and the process off the processor |
| ExitWaitAlone.KwaitAlone | xv6/xv6-source/kernel/proc.c:371-415 | so do the steps of one pass of `kwait`: the first zombie child is reaped; without one the call ends when there are no children or the process is killed, and otherwise it sleeps on its own channel; `wait_lock` is free |
| ExitWaitFork.LockMoves | xv6/xv6-source/kernel/proc.c:260-415 | whenever `wait_lock` is held, in any run, its holder can take its next step, or the process whose lock the holder waits for can |
| ExitWaitFork.KillMarks | xv6/xv6-source/kernel/proc.c:593-611 | the victim is marked and no longer sleeps; nothing else changes |
| ExitWaitFork.KilledSleepsIff | xv6/xv6-source/kernel/proc.c:371-415 | a killed process sleeps in `kwait`, or is about to, in some state of a run if and only if the run has a kill between the look of `kwait` at the mark and its sleep |
| ExitWaitAlone.KillIsMissed | xv6/xv6-source/kernel/proc.c:371-415 | such a kill is possible whenever a process with children and no zombie among them calls `kwait`: it ends asleep and killed |
| ExitWaitFork.ComesBack | xv6/xv6-source/kernel/proc.c:473-572 | a process that yields, or sleeps elsewhere and is woken, is as it was once it is scheduled again, and nobody else has changed |
| ExitWaitFork.CallsBegin | xv6/xv6-source/kernel/proc.c:327-415 | a process entering `kexit` or `kwait` can go on as soon as `wait_lock` is free; a failed copyout frees the lock and leaves the zombie for the next `kwait` |
| ExitWaitCode.ProcTable.Wakeup | xv6/xv6-source/kernel/proc.c:574-587 | exactly the sleepers on the channel, but for the caller, become runnable |
| ExitWaitCode.ProcTable.Reparent | xv6/xv6-source/kernel/proc.c:311-321 | every child becomes init's, and init is awake if there was one |
| ExitWaitCode.ProcTable.Kexit | xv6/xv6-source/kernel/proc.c:343-358 | children given away, parent awake, the process a zombie |
| ExitWaitCode.ProcTable.Kwait | xv6/xv6-source/kernel/proc.c:379-411 | frees and returns the first zombie child, fails without children or when killed, or must sleep |
| VirtioRuns.QueueIsSound | xv6/xv6-source/kernel/virtio_disk.c:156-327 | for any completion order each descriptor is free or in the chain of exactly one request, the rings never hold more than NUM entries across index wrap, and nothing panics |
| VirtioRuns.ReturnsWhenDone | xv6/xv6-source/kernel/virtio_disk.c:216-292 | `virtio_disk_rw` returns only after this very request has been carried out: block, direction and data |
| VirtioRuns.ReadsSeeWrites | xv6/xv6-source/kernel/virtio_disk.c:216-327 | in every state of every run the disk is the first one with the data of every write carried out, in order, and every read has delivered what the disk held after the transfers before it |
| VirtioSleep.AsksAsCalled | xv6/xv6-source/kernel/virtio_disk.c:216-292 | however often a call sleeps and is woken, it makes a request for just the block, direction and data it was called with, as soon as it has its turn with three descriptors free |
| VirtioRuns.RoomToOffer | xv6/xv6-source/kernel/virtio_disk.c:265-272 | the available ring has room for a new head |
| VirtioRuns.RoomToUse | xv6/xv6-source/kernel/virtio_disk.c:295-327 | the used ring has room for a completed head |
| VirtioRuns.StepKeepsInv | xv6/xv6-source/kernel/virtio_disk.c:156-327 | submission, fetch, completion, interrupt and return keep the invariant and do not panic |
| VirtioSleep.SleepersWait | xv6/xv6-source/kernel/virtio_disk.c:224-285 | a caller sleeps on `&disk.free[0]` only with fewer than three free descriptors, and on its buffer only while the disk has it |
| VirtioSleep.SomebodyMoves | xv6/xv6-source/kernel/virtio_disk.c:216-328 | as long as a call has not returned, some step other than a new call or a kill is possible |
| VirtioSleep.StepKeepsInv | xv6/xv6-source/kernel/virtio_disk.c:216-328 | every turn of a caller, device step, interrupt and kill keeps the sleep invariant and does not panic |
| VirtioSleep.TwoSpin | xv6/xv6-source/kernel/virtio_disk.c:202-230 | two callers with one or two descriptors free wake each other, and two turns later nothing has changed |
| Virtio.Alloc3 | xv6/xv6-source/kernel/virtio_disk.c:202-213 | three free descriptors, or none when there are not three |
| Virtio.FreeChainFrees | xv6/xv6-source/kernel/virtio_disk.c:186-197 | gives back exactly the three descriptors of the chain |
| VirtioCode.Disk.AllocDesc | xv6/xv6-source/kernel/virtio_disk.c:157-166 | takes the first free descriptor |
| VirtioCode.Disk.FreeDesc | xv6/xv6-source/kernel/virtio_disk.c:170-182 | blanks and frees the descriptor; not `ok` exactly where the source panics |
| VirtioCode.Disk.Alloc3Desc | xv6/xv6-source/kernel/virtio_disk.c:202-213 | three descriptors, or none with all bits given back |
| VirtioCode.Disk.FreeChain | xv6/xv6-source/kernel/virtio_disk.c:186-197 | the loop frees exactly the chain |
| VirtioCode.Disk.SubmitRequest | xv6/xv6-source/kernel/virtio_disk.c:237-277 | descriptors, request header, status byte, ring entry and index as specified |
| VirtioCode.Disk.HandleUsed | xv6/xv6-source/kernel/virtio_disk.c:310-323 | finishes the buffer of one used entry and advances; not `ok` exactly where the source panics |
| PipeRuns.PipeIsFifo | xv6/xv6-source/kernel/pipe.c:76-134 | for any number of readers and writers: deposited = delivered followed by at most PIPESIZE bytes between the wrapped counters |
| PipeRuns.WritersSleepWhenFull | xv6/xv6-source/kernel/pipe.c:88-90 | with the lock free a writer sleeps only on a full pipe whose read end is open |
| PipeRuns.ReaderForgottenIff | xv6/xv6-source/kernel/pipe.c:83-103 | a step makes a reader sleep beside bytes if and only if it is the turn of a writer who is killed after depositing something while a reader sleeps |
| PipeRuns.ReadersSleepWhenEmpty | xv6/xv6-source/kernel/pipe.c:58-134 | readers sleep only on an empty pipe, in every state of a run, if and only if no step of it is such a turn; their write end is always open |
| PipeRuns.WakeupRecalls | xv6/xv6-source/kernel/pipe.c:61-64 | a write turn that is not cut short by a kill, and closing the write end, leave no reader asleep |
| PipeRuns.KilledWriterForgetsReader | xv6/xv6-source/kernel/pipe.c:84-87 | a run with such a turn, after which a reader sleeps beside a byte |
| PipeRuns.WriteLoopPuts | xv6/xv6-source/kernel/pipe.c:83-98 | one turn deposits the next bytes in order and stops to sleep only when full |
| PipeRuns.ReadLoopTakes | xv6/xv6-source/kernel/pipe.c:120-130 | one turn takes the oldest bytes, as many as asked unless copyout fails or the pipe runs empty |
| PipeTurns.WriteTurnIs | xv6/xv6-source/kernel/pipe.c:76-103 | a write turn deposits bytes up to the first of: the last, a closed read end, a kill, a full pipe, a failing copyin. Closed or killed before the end it fails and wakes nobody; otherwise every sleeping reader is awake and the call has ended or, on a full pipe, sleeps |
| PipeTurns.ReadTurnIs | xv6/xv6-source/kernel/pipe.c:105-134 | a read turn on an empty pipe with its write end open ends if the caller is killed and else sleeps; every other one ends with as many bytes as asked, as there are or as copyout takes, whichever is fewest, and every sleeping writer is awake |
| PipeTurns.EndsClose | xv6/xv6-source/kernel/pipe.c:58-74 | closing an end closes only that end, leaves the bytes alone and wakes exactly the sleepers at the other one |
| PipeRuns.StepKeepsInv | xv6/xv6-source/kernel/pipe.c:58-134 | every turn, kill and close keeps the invariant |
| PipeCode.PipeSystem.PipeWrite | xv6/xv6-source/kernel/pipe.c:76-103 | a turn over the pipe's fields is the step of the model |
| PipeCode.PipeSystem.PipeRead | xv6/xv6-source/kernel/pipe.c:105-134 | a turn over the pipe's fields is the step of the model |
| PipeCode.PipeSystem.PipeClose | xv6/xv6-source/kernel/pipe.c:58-74 | closes one end, wakes the other side, and frees the pipe exactly when both are closed |
| ShellParser.ParseInput | shell/src/parser.c:206-271 | accepts a line exactly when it is blank or its tokens derive from the grammar |
| ShellParser.ParseCmdGroup | shell/src/parser.c:174-203 | succeeds exactly when a command group can be read, and stops behind it |
| ShellParser.ParseAtomic | shell/src/parser.c:119-171 | succeeds exactly when an atomic command can be read, and stops behind it |
| ShellParser.ParseInputRedir | shell/src/parser.c:83-94 | reads `<` and a name exactly when they are next |
| ShellParser.ParseOutputRedir | shell/src/parser.c:97-116 | reads `>` or `>>` and a name exactly when they are next, and tells which |
| ShellParser.ParseName | shell/src/parser.c:57-80 | reads the longest name exactly when one is next |
| ShellParser.SkipWhitespace | shell/src/parser.c:44-49 | stops at the next token |
| ShellGrammar.ReadIffDerivable | shell/src/parser.c:118-205 | token lists are read exactly when the grammar in the comments derives them |
| ShellGrammar.ShellComplete | shell/src/parser.c:118-205 | the tree read is the one that derives the tokens: the grammar is unambiguous |
| ShellSplit.ExecutorAgrees | shell/src/executor.c:69-410 | for every derivable line of at most 4095 characters the executor recovers the groups, background flags, stages, arguments and redirections of the derivation |
| ShellSplit.BlankRunsNothing | shell/src/executor.c:353-410 | a blank line launches nothing |
| ShellSplit.GatherAgrees | shell/src/executor.c:69-121 | `parse_command` gathers the arguments and redirections of the derivation |
| ShellSplit.PiecesAgree | shell/src/executor.c:197-217 | cutting at bars gives the stages of the derivation |
| ShellSplit.AppendMeetsLastOperator | shell/src/executor.c:96-110 | the winning output file is opened as its own operator asks, except exactly when it is a `>` after some `>>` |
| ShellSplit.AppendOutlives | shell/src/executor.c:96-110 | `cat >> a > b` opens b for appending, although its own operator asks for truncation |
| ShellExecCode.ExecuteFullCommand | shell/src/executor.c:353-410 | launches, for a line that fits the arrays, what the cut gives, and so the meaning of the line's derivation |
| ShellExecCode.SplitGroups | shell/src/executor.c:364-400 | the buffer cut in place holds exactly the trimmed non-empty groups, with their flags |
| ShellExecCode.TrimInPlace | shell/src/executor.c:369-374 | trailing blanks become NULs and nothing else changes |
| ShellExecCode.ExecutePipeline | shell/src/executor.c:197-217 | each stage's command, in order |
| ShellExecCode.SplitPipes | shell/src/executor.c:203-217 | the buffer cut in place holds exactly the pieces between the bars |
| ShellExecCode.ParseCommand | shell/src/executor.c:69-121 | arguments, files and append flag as specified |
| Grep.HereIsBegins | xv6/xv6-source/user/grep.c:85-106 | `matchhere` succeeds exactly on texts that begin with pieces fitting the pattern's items |
| GrepCode.Match | xv6/xv6-source/user/grep.c:73-82 | decides the declarative meaning of `^ . * $` patterns |
| GrepCode.MatchStar | xv6/xv6-source/user/grep.c:99-106 | the loop is the specified search |
| GrepCode.PrintMatches | xv6/xv6-source/user/grep.c:12-35 | however `read` splits NUL-free input, the output is the matching lines before the first line that does not fit the buffer |
| GrepCode.PrintLines | xv6/xv6-source/user/grep.c:21-29 | the inner loop prints exactly the matching whole lines in the buffer and stops at the unfinished one |
| Grep.PrintsMatchingLines | xv6/xv6-source/user/grep.c:12-35 | when every line, newline included, fits in 1023 characters, exactly the matching lines in order |
| Grep.PrintsAllIff | xv6/xv6-source/user/grep.c:12-35 | all matching lines are printed if and only if none is, or follows, a longer line |
| Grep.LongLineHides | xv6/xv6-source/user/grep.c:12-35 | a line of 1024 characters, and the matching line after it is not printed |
| Mlfq.RoundMoves | xv6/kernel/mlfq_scheduler.c:21-69 | a round in numbers: the boost after 48 ticks puts every ready process into queue 0 with one tick; the first ready process of the highest queue runs; with its slice used up it is exactly one queue lower, or still in the last, with 4, 8 or 16 ticks, and before that in its queue with that much less; no other process changes |
| Mlfq.OnlyOneSinks | xv6/kernel/mlfq_scheduler.c:18-69 | a process always ready and alone is in queue 1 from the first tick after a boost, in queue 2 from the fifth and in queue 3 from the thirteenth, with its slice at every tick |
| Mlfq.DecisionsAreValid | xv6/kernel/mlfq_scheduler.c:35-65 | whatever processes come, go and run, for turns below 2^31 ticks, a decision sees a queue below QUEUE_COUNT and a slice between 1 and its limit |
| Mlfq.ChargedOkIff | xv6/kernel/mlfq_scheduler.c:55-65 | for any turn below 2^32 ticks the slice stays valid if and only if the 32-bit difference does not wrap to a positive number beyond the limit |
| Mlfq.AllRunBetweenBoosts | xv6/kernel/mlfq_scheduler.c:18-70 | with one-tick turns the next boost is due after exactly 48 turns (fewer when ticks wraps), and every always-ready process runs in between if and only if there are no more processes than turns |
| Mlfq.LateOnesStarve | xv6/kernel/mlfq_scheduler.c:18-70 | the processes behind the first 48 never run again after a boost |
| Mlfq.SelectIsBest | xv6/kernel/mlfq_scheduler.c:35-47 | the first ready process of the highest queue that has one |
| MlfqCode.Scheduler.Boost | xv6/kernel/mlfq_scheduler.c:21-33 | raises exactly the ready processes exactly when the boost is due |
| MlfqCode.Scheduler.Pick | xv6/kernel/mlfq_scheduler.c:35-47 | the two loops find the specified process |
| MlfqCode.Scheduler.RunOnce | xv6/kernel/mlfq_scheduler.c:18-69 | over the process table's fields: the round that `Mlfq.RoundMoves` describes |

## Left out

- Device registers, interrupts, memory barriers, assembly, boot and `printf`: hardware and I/O.
- Sockets, `select`, logging, MD5 and chat mode in `networking/`: a timeout is a step that may happen at any time.
- `fork`, `execvp`, `dup2`, `waitpid`, signals and job control in the shell: only how a line is split is modelled; `execute_pipeline` uses a recovered input file for the first stage and an output file for the last one only.
- The CFS, FCFS and round-robin schedulers, path lookup, directories, `exec`, console, `mkfs` and the other user programs: easier members.
- Link counts and orphans: any link count may be set by a step, and files in an unlinked directory are not treated apart.
- LogRuns.CrashAtomicity: a `bwrite` of one block is atomic, and the disk keeps what it has been given in order.
- LogCode.Log.Commit: the method runs on its own, and so do LogCode.Log.WriteLog and LogCode.Log.EndOp: nobody else holds a buffer meanwhile; what other processes may do in between is in the runs of `LogRuns`, and how many buffers they may hold in `CacheRoom.BgetPanicsIff`.
- CacheRuns.BreadReturnsLatest: assumes, as the callers do, that a modified buffer is passed to `log_write` or `bwrite` before it is released; device numbers are at least 1.
- BufferCode.Bcache.Brelse: the sleep lock of the buffer is a step of `CacheRuns`, not a field here.
- Vm.Machine.Kfree: addresses are page numbers, so the alignment and range test that makes `kfree` panic is a precondition; the free-list link inside a page is a separate map, and `kinit` and `freerange` are not modelled.
- Vm.Machine.Uvmunmap: `do_free` must be set exactly when the pages of the range are user pages, as every caller has it.
- Vm.Machine.Mappages: alignment, size 0 and remapping, where the source panics, are preconditions.
- Vm.Machine.Uvmalloc: sizes are natural numbers, so the 32-bit `sbrk` arithmetic for 2 GiB and more is not covered; `copyin`, `copyout` and the kernel page table are not modelled.
- FileIo.WriteiReplaces: assumes that `copyin` succeeds; a copy that fails half way can leave a cached block changed and not logged.
- FileIo.ReadiReturns: assumes that `copyout` succeeds and that the file has no holes, which every operation keeps.
- FileBlocks.BitmapIsExact: the bitmap is a sequence of booleans and an inode a record, not packed bytes; the inode cache and its locks are not modelled.
- FileWrite.FilewriteWrites: nobody else writes the file between two chunks of one call.
- FileCrash.RecoversInOrder: the operations have an order in which they take effect, as the inode locks give it, and are logged whole blocks at a time; the on-disk form is words per bit, field and byte.
- MallocRuns.NothingLostOrShared: a free block never grows to 2^32 units, as memory is far smaller; an `sbrk` argument that is not positive is taken to add nothing, though a negative one may also move the break down.
- MallocCode.Heap.Malloc: units of 16 bytes are numbered from a base address; the header's two fields are maps, and what the program writes into its blocks is not modelled.
- ShamRuns.TransferIsSafe: packets are not corrupted and come from the two ends only; that a transfer does succeed is not claimed, since the server answers no packet twice and a lost acknowledgment can end in "Max retries"; files over 10 MB overflow the server's buffer and are excluded.
- ShamProgress.CanSucceedIff: the continuation may let the network deliver what it has held back so far; with the last acknowledgment lost for good the sender can only give up.
- ExitWaitRuns.NoLostWakeup: `p->lock` is modelled where it is held across steps; `copyout` failing in `kwait` is a step of its own, and out-of-memory in `kfork` leaves no trace.
- ExitWaitRuns.ReapedOnce: process ids are unbounded here; in the source `nextpid` is an int, and after it wraps around an old id can be given out again.
- ExitWaitCode.ProcTable.Kexit: closing files and `iput` of the current directory come before `wait_lock` and are not modelled.
- ExitWaitAlone.KforkAlone: a `kfork` that nobody interrupts; copying memory, files and names is not modelled.
- ExitWaitAlone.KwaitAlone: for a `kwait` that nobody interrupts and whose `copyout` succeeds; all interleavings are in `ExitWaitRuns`.
- VirtioRuns.ReturnsWhenDone: the device fetches requests in ring order, carries out what the descriptors say and reports success.
- VirtioSleep.SomebodyMoves: some step is possible in every state; that the device takes its steps, and so that callers return in the end, is not claimed.
- PipeRuns.PipeIsFifo: allocation of the pipe's page and files is not modelled; an end is closed only when no call is using it, as file references guarantee.
- ShellParser.ParseInput: running out of memory in `malloc` is not modelled.
- ShellSplit.ExecutorAgrees: for ASCII lines; `isspace` of a negative `char` is undefined in C, and lines over 4095 characters are cut by the buffer.
- ShellExecCode.ExecuteFullCommand: a line with more than 100 groups, 100 stages or 255 arguments writes outside the source's arrays and is excluded by a precondition.
- GrepCode.PrintMatches: input without NUL characters, and no read errors.
- Mlfq.AllRunBetweenBoosts: one CPU, a fixed set of processes, and turns of one tick.
- Mlfq.DecisionsAreValid: on one CPU no process is RUNNING when the boost is made, so only RUNNABLE ones are raised.
