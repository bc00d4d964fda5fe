# xv6: a verified model of its storage stack, allocators, processes and parsers

A Dafny 4.11 model of the parts of xv6 (x86) where state is hardest to get right, with
proofs. `dafny verify dfyconfig.toml` checks all of it.

**Redo log** (`LogFormat`, `LogProtocol`, `LogRefinement`, `LogRuns`, `LogOverrun`, `Log`).
The disk is a map from block numbers to blocks and every `bwrite` is one atomic step, so a
crash can fall between any two. `LogProtocol` is a state machine over any number of
interleaved file system operations, group commit, cache loads and evictions, crashes and
recovery; `Refinement` shows that it refines an atomic block store, and the theorems of
`LogRuns` are about whole runs. `Log` is the code of log.c as a class, with a ghost trace of
every disk image on the way; each of its methods is shown to make steps of `LogProtocol`, disk,
cache and list together (`Leads`). Two facts differ from what the comments of the source suggest.
mkfs.c makes the log area `LOGSIZE` blocks although one of them is the header, and the tests
of `log_write` run before its lock is taken: with such a log two operations can both pass the
tests and run past the end of the log area, and the commit then overwrites the first inode
block (`OverrunCorrupts`). Nor is that log large enough for three full operations: one with
budget left can panic (`NoPanicIff`). So the theorems about runs are stated for a log of any size and for
the runs that stay inside it (`Inside`). `StaysInsideIff` says for exactly which sizes all runs
do, and `InsideWhenUndisturbed` which schedules do for any size, also that of mkfs: those in
which nobody appends between the tests of an operation and its own append. And the tests of
`log_write` come before the search for an absorbing entry, so a full log panics on a block that
is already in it (`AbsorbedWriteCanPanic`).

**Buffer cache** (`BufferCache`). The doubly linked MRU list, reference counts and recycling,
and when a commit still finds a buffer: `NBUF` is `LOGSIZE`, so a full log leaves none.

**Inode layer** (`DiskBlock`, `FsBits`, `FsLayout`, `FsUsage`, `FsImage`, `FileSystem`, `FsTight`).
Bitmap allocator,
direct and indirect block map, truncation, byte reads and writes in 32-bit arithmetic, and the
chunking loop of `filewrite`. A ghost map names for every block in use the one slot of the one
inode that refers to it. `FsUsage` counts what an operation takes: free blocks, and blocks of
the log. `Grew` says that whatever an operation changed it has logged, and `FsTight` has states
in which a chunk of `filewrite` logs all `MAXOPBLOCKS` blocks it may and in which truncating one
file logs more.

**Crashes of the file system** (`FsCrash`). The two layers together. `FsImage` says what every
block of the disk holds for a state of the inode layer. `CrashLeavesWholeOperations` says that
after any crash, and any crashes during recovery, the disk holds a consistent file system: the
one that whole operations had led to at the last header write. It is stated for every run of the
logging protocol whose block writes are those of whole operations, in some order, between any
two moments at which none is outstanding.

**User allocator** (`FreeList`, `Umalloc`). The circular free list, as values and as code.

**Processes** (`SleepWakeup`, `SleepLock`, `Pipe`, `PipeSleep`, `Procs`, `ProcRuns`, `ProcTable`).
`SleepWakeup` is a state machine of any number of processes that share data under a spin lock
and call `sleep`, `wakeup` and `kill`; its steps are single lock operations and single actions
under the lock. What the processes do is a parameter; sleep locks and pipes are two instances.
Pipes also appear as a ring of bytes with wrapping counters, and fork, exit, wait and kill as
the critical sections of `ptable.lock`, with theorems about their runs. Neither `fork` nor its
failure path clears the mark that `kill` leaves in a slot, so a process can be born killed;
`BornKilledIff` says exactly when. `AsleepIff` says of every run exactly who is asleep.

**Address spaces** (`PageTable`, `TableCount`, `KernelMap`, `Vm`). Two-level page tables over
the page allocator. What the processor allows on a page is what both levels allow (`Effective`). `held` is every page in use elsewhere, including other address spaces;
`Frame` says that those are not touched.

**Regular expressions and shell** (`Regex`, `Grep`, `ShellSyntax`, `ShellTree`, `ShellLexing`,
`ShellSimple`, `ShellForms`, `Shell`). The matcher of grep.c against the textbook meaning of
regular expressions, and the parser of sh.c, with the strings its tree points at after
`nulterminate`. A form is a command line as it is written, such as `a < f b >> g`, `a | b | c` or
`(a ; b) & c`, with the parentheses it has and any white space; `ParseIff` says that the parser
accepts exactly the forms and gives each the tree it means.

Panics of the kernel appear as results (`-1`, `false`, `Panic`, `Panicked`, `Remap`, `Crashed`).
Addresses in `Umalloc` count headers of eight bytes; those in `PageTable` count pages.

## Model

| member | source | states |
|---|---|---|
| `LogFormat.PutHeader` | log.c:101-113 | the header written for any list of at most LOGSIZE blocks reads back as that list |
| `LogFormat.RedoLogBlock` | log.c:177-190 | before the commit point, overwriting a log block changes nothing that a crash and replay would leave |
| `LogFormat.RedoCommit` | log.c:101-113 | one header write makes every listed home block read as its log block, and no other block change |
| `LogFormat.RedoInstall` | log.c:69-82 | installing any listed block, in any order and repeatedly, leaves the replayed contents as they are |
| `LogFormat.RedoClear` | log.c:192-202 | once all blocks are installed, erasing the header leaves the replayed contents, now in the home blocks |
| `LogProtocol.ReservationStep` | log.c:125-141 | every step of every process keeps: logged blocks plus unused budgets of outstanding operations at most LOGSIZE |
| `LogProtocol.AppendInBounds` | log.c:213-233 | an operation with budget left finds room in lh.block, although the tests were made without the lock |
| `LogRefinement.Refinement` | log.c:69-233 | for a log of any size, every step that does not take the list past the log area keeps the invariant (clean buffers equal the disk, logged blocks stay cached and dirty, phases ordered) and acts on an atomic store: a write changes what readers see, a header write makes all of it durable at once, a crash returns to the last durable contents, nothing else is visible |
| `LogRuns.Safety` | log.c:69-233 | for a log of any size, the invariant holds in every state of every run that stays inside the log area, from any disk image an earlier run may have left |
| `LogRuns.ReservationHolds` | log.c:125-141 | in every interleaving and for a log of any size, lh.n stays at most LOGSIZE and below it for an operation with budget left |
| `LogRuns.RecoveredHome` | log.c:115-122 | when the header has been erased, the home blocks are the committed contents and what readers see |
| `LogRuns.PhaseOrder` | log.c:192-202 | a commit copies, writes the header, installs, clears, in that order, and no operation writes meanwhile |
| `LogRuns.CrashAtomicity` | log.c:69-122 | a commit cut short by any number of crashes, also inside recovery, ends with all home blocks new if its header write reached the disk and all old if not, and an empty header |
| `LogRuns.CommitIsWholeJournal` | log.c:145-202 | a header write happens with no operation outstanding, names every block written since the last one, and makes exactly those writes, in order, durable |
| `LogRuns.JournalCollects` | log.c:145-233 | until a crash or a header write, the journal is what it was plus every write of every operation since, in order; for a log of any size |
| `LogRuns.OperationNotSplit` | log.c:125-202 | no header write falls inside an operation, and all its writes are in the journal that the next header write commits: what is then durable is that journal on top of what was durable when the operation began |
| `LogRuns.OperationNotHalfLost` | log.c:125-202 | if a crash comes before that header write, nothing that the operation wrote is durable |
| `LogRuns.ReadsLastWrite` | bio.c:61-106 | through any loads, evictions and commits, a block reads as it was last written |
| `LogOverrun.Overrun` | log.c:213-233 | for a log of 2 to LOGSIZE blocks, a run in which two operations pass the tests together and log past the end of the log area |
| `LogOverrun.OverrunCorrupts` | log.c:177-190 | for such a log, a run whose commit overwrites the block after the log area, the first inode block, which no operation has written |
| `LogOverrun.InsideWhenSpare` | log.c:213-233 | with one block or more than LOGSIZE blocks every run stays inside the log area |
| `LogOverrun.InsideWhenUndisturbed` | log.c:213-233 | for a log of any size, a run in which nobody appends between the tests of an operation and its own append stays inside |
| `LogOverrun.StaysInsideIff` | mkfs.c:25 | every run stays inside the log area if and only if the area is one block or more than LOGSIZE blocks |
| `LogOverrun.NoPanicIff` | log.c:213-221 | log_write by an operation with budget left never panics, in any reachable state, if and only if the log has more than LOGSIZE blocks |
| `LogOverrun.PanicWithinBudget` | mkfs.c:25 | for every smaller log, a reachable operation with budget left that does panic |
| `LogOverrun.AbsorbedWriteCanPanic` | log.c:218-229 | for every log with room for a block, a reachable state in which log_write of an already logged block panics |
| `Log.CopyOne` | log.c:177-190 | copying one block into the log keeps the meaning of the disk image |
| `Log.CommitPoint` | log.c:101-113 | the header write turns an image that means the old contents into one that means the new |
| `Log.LastTurn` | log.c:145-174 | end_op of the last operation is a run of protocol steps: EndOp, then the whole commit if anything is logged, then Finish |
| `Log.BeginTurn` | log.c:125-141 | the protocol lets an operation begin exactly when begin_op does not sleep |
| `Log.Log.Bread` | bio.c:96-106 | returns the cached data and keeps cache and disk coherent |
| `Log.Log.Bwrite` | bio.c:109-116 | one disk write, recorded in the trace, after which the buffer is clean |
| `Log.Log.BeginOp` | log.c:125-141 | admits the operation exactly when no commit runs and its full budget fits, and is then the protocol's BeginOp; else sleeps |
| `Log.Log.LogWrite` | log.c:213-233 | panics exactly on the three tests; otherwise appends the block unless it is listed, keeps the list duplicate-free and marks the buffer dirty; makes the protocol's steps Guard and Append |
| `Log.Log.WriteLog` | log.c:177-190 | log block i holds what the cache had for lh[i]; every image on the way still means the old contents; no home block's buffer changes; makes the protocol's steps CopyBlock |
| `Log.Log.WriteHead` | log.c:101-113 | one write: the header block with the in-memory list put in |
| `Log.Log.InstallTrans` | log.c:69-82 | every listed home block equals its log block and its buffer is clean with that data; no other home block's buffer is touched; every image on the way means the same; makes the protocol's steps InstallBlock |
| `Log.Log.ClearHead` | log.c:119-121 | the second header write empties the list, changes no home block and no home buffer |
| `Log.Log.Commit` | log.c:192-202 | home blocks become what was last written; of the 2n+2 images on the way the first n mean the old and all later ones the new contents; the buffers of the blocks committed become clean with the data they had, and no other home buffer changes; makes the protocol's steps from CopyLog to Cleared |
| `Log.Log.EndOp` | log.c:145-174 | the last outstanding operation commits everything logged, with images and buffers as in Commit; any other only leaves; panics exactly if a commit runs; makes the protocol's steps from EndOp to Finish |
| `Log.Log.ReadHead` | log.c:85-96 | loads the list that the header on disk records |
| `Log.Log.RecoverFromLog` | log.c:115-122 | home blocks become the replayed contents and the header empty; every image on the way means the same, so recovery can be cut short any number of times; if no buffer was dirty none is, and readers see the replayed contents; makes the protocol's steps from ReadHead to ClearHead |
| `BufferCache.UnlinkRing` | bio.c:132-133 | the two assignments that unlink a buffer leave a well-formed ring without it |
| `BufferCache.PushRing` | bio.c:134-137 | the four assignments at the head leave a well-formed ring with the buffer first |
| `BufferCache.ReleaseOrder` | bio.c:120-141 | moving a buffer to the front keeps the list a permutation ordered by time of release |
| `BufferCache.Cache.constructor` | bio.c:38-56 | a ring of all NBUF buffers, free, invalid, with identity (0,0) |
| `BufferCache.Cache.FindCached` | bio.c:68-76 | finds the buffer of a cached block, and none exactly if the block is not cached |
| `BufferCache.Cache.FindFree` | bio.c:78-91 | finds the least recently released buffer that is unreferenced and clean, and none exactly if there is none |
| `BufferCache.Cache.Bget` | bio.c:61-93 | a cached block gains a reference; otherwise the least recently released free buffer is recycled; panics exactly if neither exists; identities stay unique and no other buffer changes |
| `BufferCache.Cache.MoveToFront` | bio.c:130-138 | the ring stays well formed and a permutation, the buffer is first and most recent |
| `BufferCache.Cache.Brelse` | bio.c:120-141 | drops one reference; only the last one moves the buffer to the front |
| `BufferCache.RoomIff` | bio.c:78-91 | some buffer can be recycled if and only if fewer than NBUF are dirty or referenced |
| `BufferCache.HoldingAll` | log.c:231 | n logged blocks keep n buffers from being recycled |
| `BufferCache.ReadLogBlock` | log.c:177-190 | while the blocks of the list are pinned, reading a log block panics exactly if it is not cached and NBUF buffers are dirty or referenced: always for a list of NBUF blocks, never if nothing but a shorter list is busy |
| `DiskBlock.PutWordAt` | fs.c:390-395 | storing an address in an indirect block changes that entry and no other |
| `DiskBlock.AsWordsInjective` | log.c:101-113 | a block read as words is the same block as read as bytes |
| `FsBits.SetBitAt` | fs.c:65-94 | setting or clearing bit b of the byte map changes block b and no other |
| `FsBits.ByteOf` | fs.c:65-94 | bit i of a byte of the bitmap has weight 2^i: the byte is the number that its eight blocks spell, the first least significant |
| `FsLayout.OwnershipPartition` | fs.c:56-96 | the bitmap is the metadata plus a disjoint union of the blocks of all inodes: direct, indirect and indirect entries; no address occurs twice |
| `FsLayout.TakeForInode` | fs.c:373-389 | giving a free block to an empty slot of an inode keeps ownership exact and every other slot |
| `FsLayout.TakeForEntry` | fs.c:390-397 | the same for an entry of the indirect block |
| `FsLayout.WriteData` | fs.c:499-505 | rewriting a data block moves no slot of any inode |
| `FsLayout.TruncateOwned` | fs.c:408-436 | removing all blocks of one inode keeps ownership exact and every other inode's slots |
| `FsLayout.PatchWrites` | fs.c:499-505 | copying bytes into one data block changes exactly those bytes of that file |
| `FsUsage.GrewMore` | log.c:213-233 | two parts of an operation that logged what they changed, kept every slot in use and took n1 and n2 free blocks make one that did so with n1 + n2 |
| `FsUsage.NeededIsGrowth` | fs.c:373-401 | a file without holes that is written on needs exactly as many new blocks as its size says |
| `FsUsage.ShortAgain` | file.c:139-156 | if a later chunk finds too few free blocks, there were too few for the whole write |
| `FsImage.CoversChanges` | fs.c:220-238 | if the blocks, the bitmap blocks of bits and the inode blocks of inodes that changed are among a, then so is every block of the disk that changed |
| `FsImage.ImageTellsState` | fs.h:27-52 | two file systems with the same disk image have the same bitmap, inodes and data blocks |
| `FsImage.PutNumberBytes` | fs.c:387-397 | entries of an indirect block are stored as the addresses in an inode are, least significant byte first |
| `FileSystem.TruncateFiles` | fs.c:408-436 | after truncation the freed blocks are exactly those the inode held, and all other files read as before |
| `FileSystem.UnalignedIsMapped` | fs.c:494-501 | a write that does not start on a block boundary finds its first block already allocated |
| `FileSystem.WriteTurn` | fs.c:499-505 | one turn of writei's loop: no holes, the bytes so far are in the file, and if the size is not exceeded the inode is untouched |
| `FileSystem.WrittenContent` | fs.c:482-512 | the bytes of the file after the loop are the old ones with the source spliced in |
| `FileSystem.OtherContent` | fs.c:482-512 | every other file has the same bytes |
| `FileSystem.FinishWrite` | fs.c:507-510 | recording the larger size leaves a consistent file system whose file is the splice |
| `FileSystem.ReadChunk` | fs.c:470-475 | the part of a block that readi copies is that slice of the file |
| `FileSystem.ChunkFits` | file.c:131-156 | a chunk of filewrite logs at most MAXOPBLOCKS blocks, at any offset and length, however new blocks are spread over bitmap blocks |
| `FileSystem.CopyIn` | fs.c:499-505 | after bmap, copying bytes into the block that is logged writes them to the file and to no other |
| `FileSystem.RecordGrown` | fs.c:507-510 | after the size is recorded, all that the write changed is logged, the inode included |
| `FileSystem.HeldCount` | fs.c:373-401 | a file without holes holds exactly as many blocks as its size says |
| `FileSystem.FreedCount` | fs.c:408-436 | truncation frees exactly that many blocks |
| `FileSystem.CostAligned` | fs.c:499-505 | from a boundary on, writing n bytes costs two logged blocks for every block touched |
| `FileSystem.SpliceTwice` | file.c:139-156 | two adjacent writes make the same file as one |
| `FileSystem.Fs.constructor` | mkfs.c:94-140 | a consistent empty file system |
| `FileSystem.Fs.FindFree` | fs.c:62-76 | the first clear bit over all bitmap blocks, and none exactly if all are set |
| `FileSystem.Fs.Balloc` | fs.c:56-78 | takes the first free block, zeroes it and changes nothing else; panics exactly if none is free |
| `FileSystem.Fs.Bfree` | fs.c:81-96 | clears one bit; panics exactly on a block that is free already |
| `FileSystem.BitmapOnDisk` | fs.c:56-96 | the bytes that balloc and bfree work on are those of the bitmap blocks of the disk image |
| `FileSystem.Fs.LoadIndirect` | fs.c:387-389 | the indirect block, allocated only if the inode has none |
| `FileSystem.Fs.Bmap` | fs.c:373-401 | returns the block of slot bn, allocating at most it and the indirect block; a mapped block is only looked up; no byte of any file changes; never returns block 0; panics exactly if the free blocks are fewer than it needs; says which blocks are logged, and they include all it changed |
| `FileSystem.Fs.FreeBlocks` | fs.c:408-436 | frees exactly the blocks of one inode, each once: bfree never meets a free block |
| `FileSystem.Fs.Itrunc` | fs.c:408-436 | the file becomes empty, its blocks and no others become free, as many as its size says; all other files are unchanged; logs exactly the bitmap blocks that cover its blocks and its inode block |
| `FileSystem.Fs.GrowTo` | fs.c:507-510 | records a larger size and writes the inode to disk exactly if the file grew |
| `FileSystem.Fs.WriteLoop` | fs.c:499-505 | all bytes are written, with the number of logged blocks bounded by the cost of the chunks, or the blocks by which the file grows are not free |
| `FileSystem.Fs.Writei` | fs.c:482-512 | for all 32-bit offsets and lengths: refuses exactly beyond the end of file or of MAXFILE; otherwise splices the bytes in, changes no other file and no field of an inode but the addresses and the size of this one, leaves the inode on disk equal to the one in memory although it is written only when the file grows, logs all it changes and at most the budget; panics exactly if the blocks by which the file grows are not free |
| `FileSystem.Fs.Readi` | fs.c:453-477 | for all 32-bit offsets and lengths: refuses exactly past the end or on wrap-around; otherwise returns the slice clipped at the end of the file and changes nothing |
| `FileSystem.Fs.WriteOp` | file.c:144-149 | one operation of filewrite logs at most MAXOPBLOCKS blocks, among them every block of the disk that it changes, and leaves a consistent file system |
| `FileSystem.Fs.TruncOp` | fs.c:331-352 | an operation that truncates a file changes no block of the disk but those it logs, and leaves a consistent file system |
| `FileSystem.ChunkAccepted` | file.c:139-156 | every chunk that writei does not refuse is among the bytes filewrite gets to write |
| `FileSystem.ChunkRefused` | file.c:139-156 | the chunk that it refuses is the first one that is not |
| `FileSystem.Fs.Filewrite` | file.c:121-160 | for every offset and length: how many bytes it splices in, all or as many whole chunks as the largest file has room for, and the final size; the result is n exactly if that is all; panics exactly if the blocks by which the file would grow are not free; free blocks and blocks of the file add up to what they were |
| `FsTight.FullConsistent` | mkfs.c:94-103 | a consistent disk, laid out as by mkfs, whose four free blocks are covered by four bitmap blocks |
| `FsTight.FillsShare` | file.c:131-156 | which ten blocks a chunk written there has logged |
| `FsTight.ChunkFillsShare` | file.c:131-156 | the bound is reached: writing one chunk there logs exactly MAXOPBLOCKS blocks |
| `FsTight.TruncateFitsIff` | fs.c:331-352 | on a disk laid out as by mkfs, truncating a file logs at most MAXOPBLOCKS blocks if and only if fewer than MAXOPBLOCKS bitmap blocks cover its blocks |
| `FsTight.TruncateFits` | param.h:13 | which is so for every file if the disk has at most 9 bitmap blocks, as FSSIZE blocks have |
| `FsTight.TruncateOverflows` | fs.c:331-352 | on a larger disk, a file whose truncation logs more than MAXOPBLOCKS blocks |
| `FsCrash.AloneSerializable` | log.c:125-174 | an operation that runs alone meets what is asked of operations |
| `FsCrash.FsHolds` | log.c:69-233 | in every state of every run: what is durable is the image of a consistent file system, and what readers see is the image of what completed operations led to, with the writes of outstanding ones on top |
| `FsCrash.DurableIsWhole` | log.c:192-202 | what is durable is what the operations had led to at the last header write, when none was outstanding |
| `FsCrash.CrashLeavesWholeOperations` | log.c:115-122 | when recovery, or a commit, is done, after any crashes at any block writes, the home blocks are exactly that consistent file system: no operation is there in part |
| `FsCrash.QuietReads` | bio.c:96-106 | while no operation is outstanding, the buffer cache shows what the operations have led to |
| `FreeList.EndsBefore` | umalloc.c:24-44 | blocks on the list are in address order with a gap between any two |
| `FreeList.FreeBlock` | umalloc.c:33-43 | after free the list is still one circle in address order with no two blocks touching, p is on it, and the free units are the old ones and those of the block |
| `FreeList.TakeWhole` | umalloc.c:76-77 | an exact fit leaves a well-formed list without the block |
| `FreeList.TakeTail` | umalloc.c:78-82 | cutting off the tail leaves the same well-formed list |
| `FreeList.TakeTailUnits` | umalloc.c:78-82 | the units of the tail, and no others, stop being free |
| `Umalloc.UnitsCoverIff` | umalloc.c:69 | the block holds the bytes asked for if and only if rounding up does not wrap around |
| `Umalloc.SbrkArgumentIff` | umalloc.c:46-61 | morecore asks sbrk for what it then records if and only if the request is below 2 gigabytes |
| `Umalloc.BlocksApart` | umalloc.c:63-90 | no live block overlaps another block, live or free |
| `Umalloc.PayloadIsFree` | umalloc.c:24-44 | whatever the program writes into its blocks leaves the list and the accounting intact |
| `Umalloc.FreedAccounted` | umalloc.c:24-44 | freeing conserves the memory: live and free units together stay what sbrk gave |
| `Umalloc.TakenAccounted` | umalloc.c:75-85 | so does taking a block |
| `Umalloc.RunInOneBlock` | umalloc.c:46-61 | because blocks never touch, a run of free units lies in one block |
| `Umalloc.SearchedNext` | umalloc.c:74-89 | one turn of malloc's search: everything since freep is too small, and a full lap means everything is |
| `Umalloc.Allocator.constructor` | umalloc.c:21-22 | an allocator with no memory |
| `Umalloc.Allocator.FindBelow` | umalloc.c:30-32 | the search of free ends within one lap, at the highest header below the block |
| `Umalloc.Allocator.Free` | umalloc.c:24-44 | exactly that block stops being live, its units become free, all memory stays accounted for, no other block's size changes; the next search starts at the free header below the block |
| `Umalloc.Allocator.MoreCore` | umalloc.c:46-61 | on success some free block now has the units asked for; on failure nothing changed |
| `Umalloc.Allocator.Take` | umalloc.c:75-85 | a block of exactly nunits becomes live: the last nunits units of the free block, which leaves the list exactly if that is all of it |
| `Umalloc.Allocator.FirstFit` | umalloc.c:74-88 | one lap finds a block exactly if some free block is large enough, and then the first one after freep, with its predecessor |
| `Umalloc.Allocator.FindOrGrow` | umalloc.c:74-89 | sbrk is asked for memory exactly if no free block is large enough, and otherwise nothing changes; the retry after morecore always succeeds, so a block is found exactly if one is large enough or sbrk does not refuse; it is the first such block after freep |
| `Umalloc.Allocator.Malloc` | umalloc.c:63-90 | a new live block of the right size that was not live before, every other live block kept; the result is 0 exactly if no free block is large enough and sbrk refuses; memory is taken from sbrk exactly if no free block is large enough and it does not refuse; otherwise the block is the tail of the first block after freep that fits, and freep becomes its predecessor |
| `SleepWakeup.LocksRight` | proc.c:420-477 | in every state of every run, each spin lock is held by exactly the process whose code is between its acquire and release |
| `SleepWakeup.NoWakeupLost` | proc.c:420-477 | for any processes that wake a channel after making its condition true and before releasing lk: in every state of every run in which nobody has so far released lk with a wakeup owed, kills included, nobody sleeps on a condition that is true, or is about to, unless the holder of lk will still wake it |
| `SleepWakeup.LosesIff` | proc.c:420-477 | releasing lk with a wakeup owed loses one if and only if somebody sleeps on a channel owed one whose condition is true |
| `SleepWakeup.NeverStuck` | proc.c:420-477 | a process that has entered and does not sleep on a false condition can step, or the holder of a spin lock in its way can |
| `SleepWakeup.KilledTooLate` | proc.c:482-500 | a process that sleeps although killed was killed while holding lk, after its look at killed and before it took ptable.lock |
| `SleepWakeup.SleepsAnyway` | proc.c:482-500 | and a process killed at any such moment goes to sleep by its own steps, marked |
| `SleepLock.LocksDisciplined` | sleeplock.c:22-42 | sleep locks follow the rule of NoWakeupLost |
| `SleepLock.HolderRight` | sleeplock.c:22-42 | in every state of every run, locked is set exactly while one process holds the sleep lock, and pid names it |
| `SleepLock.MutualExclusion` | sleeplock.c:22-42 | at most one process is between acquiresleep and releasesleep |
| `SleepLock.NoneSleepsThroughRelease` | proc.c:420-477 | no process sleeps on a free sleep lock unless a releaser is about to wake it |
| `SleepLock.HoldingSleepRightIff` | sleeplock.c:44-53 | holdingsleep answers right for a process if and only if no other process holds the lock |
| `SleepLock.HoldingSleepCanBeWrong` | sleeplock.c:44-53 | a run after which it answers yes to a process that does not hold the lock, the spin lock inside being free |
| `PipeSleep.PipesDisciplined` | pipe.c:59-121 | pipewrite, piperead and pipeclose follow the rule of NoWakeupLost except where a writer gives up |
| `PipeSleep.HonestIff` | pipe.c:85-90 | the one way to release the pipe's lock with a wakeup owed: giving up on a full pipe, killed or without a reader, after putting bytes |
| `PipeSleep.NoPipeWakeupLost` | pipe.c:78-121 | in every interleaving, kills included, in which no writer has done that so far, no reader sleeps on a pipe with bytes or without writers and no writer on one with room or without readers, unless the holder of the lock will still wake it |
| `PipeSleep.GivingUpLosesIff` | pipe.c:85-90 | doing that loses a wakeup if and only if a reader sleeps |
| `PipeSleep.GivingUpCanLose` | pipe.c:85-90 | a run after which a reader sleeps on a full pipe whose lock is free |
| `PipeSleep.CountsStayRight` | pipe.c:78-121 | in every run the wrapping counters are at most PIPESIZE apart |
| `PipeSleep.KilledSleeper` | proc.c:482-500 | a process asleep in a pipe although killed was killed while it held the pipe's lock, past its look at killed |
| `PipeSleep.DriveReads` | pipe.c:100-121 | all actions of piperead under the lock together: the read counter advances by as many bytes as there are and asked for and the writers are woken, or it sleeps or gives up on an empty pipe with a writer |
| `PipeSleep.DriveWrites` | pipe.c:78-98 | the same for pipewrite: the write counter advances by what there is room for; if that is not all it sleeps with the rest to go and the readers woken, or gives up without waking them |
| `PipeSleep.DriveCloses` | pipe.c:59-75 | the same for pipeclose: one flag cleared and the other side woken |
| `PipeSleep.ReadStretch` | pipe.c:100-121 | Pipe.Read changes counters, flags and sleepers exactly as the actions of piperead do |
| `PipeSleep.WriteStretch` | pipe.c:78-98 | so does Pipe.Write for pipewrite |
| `PipeSleep.CloseStretch` | pipe.c:59-75 | and Pipe.Close for pipeclose |
| `Pipe.FullTest` | pipe.c:85-106 | the comparisons of the wrapping counters are the tests for full and empty |
| `Pipe.WrapIndex` | pipe.c:93-116 | counters that wrap at 2^32 still address the ring in order |
| `Pipe.WritePosition` | pipe.c:93 | the next byte goes right behind the last one kept |
| `Pipe.Pipe.constructor` | pipe.c:22-47 | an empty pipe, open at both ends |
| `Pipe.Pipe.Push` | pipe.c:93 | one byte is appended to the contents |
| `Pipe.Pipe.Pop` | pipe.c:116 | the oldest byte is removed |
| `Pipe.Pipe.Write` | pipe.c:78-98 | on any pipe, also one on which a wakeup was lost: a prefix of the bytes is appended in order; it stops short only on a full ring; wakes all readers except when it gives up, and giving up loses a wakeup if and only if readers were asleep |
| `Pipe.Pipe.Read` | pipe.c:100-121 | on any pipe: returns the oldest bytes, as many as there are and asked for; sleeps only on an empty pipe with an open writer; loses no wakeup |
| `Pipe.Pipe.Drain` | pipe.c:113-117 | the copy loop takes the oldest bytes in order |
| `Pipe.Pipe.Close` | pipe.c:59-75 | on any pipe: closes one end, wakes those who wait for it, and frees the pipe exactly if both ends are closed; a lost wakeup is made good exactly by closing the write end |
| `Pipe.Pipe.Kill` | proc.c:482-500 | on any pipe: waking a sleeper loses no byte and no other wakeup |
| `Procs.WokenInv` | proc.c:460-468 | wakeup1 keeps the family invariant |
| `Procs.ExitedAt` | proc.c:230-271 | what exit does to every slot: children pass to init, the process becomes a zombie, and a sleeper wakes up exactly if its channel is the parent, or init when init gains a zombie |
| `Procs.ExitedInv` | proc.c:230-271 | exit keeps the processes a tree under init with live parents, unique pids, and every waiter asleep with a live child and no zombie |
| `Procs.PathToInit` | proc.c:230-315 | from every process the chain of parents, all live, ends at init |
| `Procs.Embryo` | proc.c:79-92 | allocproc keeps the invariant, with a pid never used before |
| `Procs.Stillborn` | proc.c:94-98 | giving the slot back, with its stale pid, keeps it |
| `Procs.GetsParent` | proc.c:203 | so does setting the parent without the lock |
| `Procs.Born` | proc.c:216-224 | and making the child runnable |
| `Procs.Reaped` | proc.c:290-303 | and taking a zombie off the table |
| `Procs.ChildIsLive` | proc.c:284-309 | a process that is not in the middle of a fork and has a child but no zombie has a live one |
| `Procs.SleepsInWait` | proc.c:306-314 | and going to sleep in wait after a scan that found a child and no zombie |
| `ProcRuns.RunInv` | proc.c:73-500 | in every state of every run of the table the processes are a tree under init with live parents, pids are unique, and every process asleep in wait has a live child and no zombie |
| `ProcRuns.MarkStep` | proc.c:299-490 | only kill and a fault set the mark of a slot, and only wait clears it |
| `ProcRuns.KilledIff` | proc.c:299-490 | in every run, a slot is marked exactly if a kill or a fault has hit it since it was last reaped |
| `ProcRuns.AsleepIff` | proc.c:420-500 | in every run a process is asleep exactly if it has gone to sleep and since then there has been no wakeup of its channel, no kill of it, no exit of its child while the channel is itself, and no exit that hands zombies to init while the channel is init |
| `ProcRuns.MarkedBeforeSleep` | proc.c:306-500 | a process asleep although marked was marked before it went to sleep, and not in wait: no kill leaves its target asleep |
| `ProcRuns.BornKilledIff` | proc.c:73-224 | fork makes a process that is born killed exactly if an earlier kill hit its slot while it was free, or was an embryo of a fork that then failed, and the slot has not been reaped since |
| `ProcRuns.CleanStep` | proc.c:196-201 | of all steps, only kill of a free slot and the failure path of fork for a killed embryo leave a free slot marked |
| `ProcRuns.CleanRunIff` | proc.c:196-201 | free slots stay unmarked through a run if and only if it has neither |
| `ProcRuns.BornKilled` | proc.c:482-500 | a run in which kill(0) and then fork make a process that is born killed |
| `ProcRuns.BornKilledAfterAbort` | proc.c:196-201 | a run in which kill of an embryo, a failing fork and another fork do |
| `ProcTable.KillReachesIff` | proc.c:482-500 | the slot kill finds is a process if and only if some process has that pid; kill(0) always finds a free slot |
| `ProcTable.Ptable.constructor` | proc.c:123-157 | one process, all other slots free and clean |
| `ProcTable.Ptable.Wakeup1` | proc.c:460-468 | exactly the sleepers on the channel become runnable, and nothing else about any process changes |
| `ProcTable.Ptable.Wakeup` | proc.c:471-477 | the same, keeping the invariant |
| `ProcTable.Ptable.AllocProc` | proc.c:79-92 | the first free slot becomes an embryo with a fresh pid; fails exactly if no slot is free |
| `ProcTable.Ptable.Abort` | proc.c:196-201 | the slot is free again and the invariant holds; free slots stay unmarked if and only if the embryo had not been killed |
| `ProcTable.Ptable.SetParent` | proc.c:203 | sets one parent and keeps the invariant |
| `ProcTable.Ptable.MakeRunnable` | proc.c:216-224 | the child becomes runnable and the invariant holds |
| `ProcTable.Ptable.Reparent` | proc.c:258-266 | exit's loop gives all children to init and wakes it exactly if one is a zombie |
| `ProcTable.Ptable.Exit` | proc.c:230-271 | exit as specified by ExitedAt, keeping the invariant; refused exactly for init |
| `ProcTable.Ptable.ScanChildren` | proc.c:284-304 | finds the first zombie child, or tells whether there are children at all |
| `ProcTable.Ptable.Wait` | proc.c:275-315 | reaps exactly if there is a zombie child, and a pid it returns was never returned before; otherwise gives up or sleeps, the invariant being kept |
| `ProcTable.Ptable.Kill` | proc.c:482-500 | marks the first slot with the pid and makes it runnable if it was asleep, its state being kept otherwise; free slots stay unmarked if and only if that slot is not a free one |
| `ProcTable.Ptable.Fault` | trap.c:138-143 | a process marks itself; free slots stay unmarked |
| `ProcTable.Ptable.Sleep` | proc.c:420-455 | sleeping on another channel keeps the invariant |
| `ProcTable.Ptable.Switch` | proc.c:325-395 | so do the scheduler and yield |
| `PageTable.SetPte` | vm.c:60-80 | writing the entry of one page changes the mapping of no other page |
| `PageTable.AddTableView` | vm.c:35-55 | a new empty table changes no mapping |
| `PageTable.MapUser` | vm.c:60-80 | mapping a new page at a free address keeps every page of the address space to one use |
| `PageTable.UnmapUser` | vm.c:269-276 | clearing an entry takes exactly its page out of the address space |
| `PageTable.Clobber` | kalloc.c:59-77 | what happens to a page outside the tables does not change the address space |
| `PageTable.EffectiveAccess` | vm.c:35-80 | every mapped page can be used as its own entry says, since directory entries allow everything |
| `TableCount.UserTables` | vm.c:35-55 | mapping the first v user pages takes one table for every 1024 begun |
| `KernelMap.KmapWfIff` | vm.c:105-115 | the kernel's segments are disjoint if and only if the linker aligns its data segment to a page |
| `KernelMap.KmapCost` | vm.c:105-136 | setupkvm takes 65 pages, whatever the size of the kernel |
| `KernelMap.KernelLayout` | vm.c:105-136 | page by page what setupkvm maps: physical memory from KERNBASE up, of which exactly the text and read-only data are write-protected, device space at its own addresses, and no other page |
| `KernelMap.NoRemap` | vm.c:118-136 | the next segment meets no page that is already mapped |
| `Vm.SkipsNothing` | vm.c:265-268 | the jump over an absent page table passes no mapped page |
| `Vm.LeakAt` | vm.c:332-336 | arithmetic of where copyuvm runs out: on a table exactly if the pages left are 1 modulo 1025 |
| `Vm.CopyOnePage` | vm.c:315-343 | a process of one page made and then copied with n pages free: the copy fails exactly for n below 67, and then all pages come back except for n = 66, where one is lost |
| `Vm.OtherSpace` | vm.c:35-80 | an address space whose pages are not touched keeps all its mappings |
| `Vm.OnePageProcess` | vm.c:118-249 | setupkvm and allocuvm make a process of one page out of exactly 67 pages |
| `Vm.Vm.constructor` | kalloc.c:31-53 | the free list is exactly the whole pages of the range, once each |
| `Vm.Vm.Kalloc` | kalloc.c:82-95 | hands out a page that is in use nowhere, or fails exactly if none is free |
| `Vm.Vm.Kfree` | kalloc.c:59-77 | the page is free again and every page stays accounted for |
| `Vm.Vm.WalkPgdir` | vm.c:35-55 | returns the table of a page, making it only if asked, from the first free page and with a directory entry that allows user writes; no mapping changes; fails exactly without a table and without a page for one |
| `Vm.Vm.Mappages` | vm.c:60-80 | maps exactly the pages touched, to consecutive frames, with the permission asked for at both levels together; panics only on a mapped page; running out says that free pages were fewer than the tables needed; writes no page of others |
| `Vm.Vm.Deallocuvm` | vm.c:255-279 | exactly the present pages from PGROUNDUP(newsz) to oldsz become free, once each, and all other mappings stay |
| `Vm.Vm.Freevm` | vm.c:283-298 | every page of the address space becomes free, and nothing else |
| `Vm.Vm.Setupkvm` | vm.c:118-136 | the kernel's map and nothing else; fails exactly if the free pages are fewer than its cost, and then leaves the free pages as they were |
| `Vm.Vm.Allocuvm` | vm.c:221-249 | grows to newsz exactly if the free pages cover the new pages and their tables, and takes no others; the program can then write the new pages; else unmaps what it mapped, keeps all other mappings and holds on to no page but tables |
| `Vm.Vm.Lifetime` | vm.c:118-298 | setupkvm, any sequence of growing and shrinking, each succeeding or failing, then freevm: the set of free pages is what it was |
| `Vm.Vm.Copyuvm` | vm.c:315-343 | copies every page with its flags and its effective permission to a page of its own and leaves the parent untouched; runs out exactly if the pages do not cover the copy; then all pages come back except that one is lost if and only if the pages left after setupkvm are 1 modulo 1025 |
| `Regex.StarSym` | grep.c:99-106 | words of c* are the strings all of whose characters fit c |
| `Regex.PrefixStar` | grep.c:90-91 | x*re matches a prefix if and only if re matches after some run of x |
| `Regex.PrefixSym` | grep.c:92-96 | a literal or dot matches a prefix if and only if the first character fits and the rest matches |
| `Regex.MatchesSuffix` | grep.c:77-81 | an unanchored pattern matches if and only if it is a prefix of some suffix |
| `Grep.Match` | grep.c:72-82 | true if and only if some part of the text, with the ends fixed by ^ and a final $, is in the language of the pattern, for all strings |
| `Grep.MatchHere` | grep.c:85-96 | true if and only if a prefix of the text is in the language |
| `Grep.MatchStar` | grep.c:99-106 | true if and only if the rest matches after some run of the starred character |
| `ShellSyntax.TokenWord` | sh.c:295-299 | a word token is a maximal run of characters that are neither white space nor symbols |
| `ShellSyntax.ParseWf` | sh.c:327-446 | in every tree the parser returns, words are whole words of the line, EXEC nodes have fewer than MAXARGS, redirections have one of the two modes |
| `ShellSimple.SimpleIff` | sh.c:415-446 | parseexec accepts exactly words and arrows with their files, with fewer than MAXARGS arguments; the arguments are the words that no arrow precedes, in order, wherever the redirections stand, and the redirections are the arrows in order, the first innermost, each with the mode and descriptor of its arrow |
| `ShellSimple.RedirsIff` | sh.c:374-397 | parseredirs takes exactly the redirections at the front |
| `ShellLexing.TokensIff` | sh.c:265-308 | the lines with given tokens are exactly their layouts: the tokens with any white space between them, none being needed except between two words and between > and another > |
| `ShellForms.RoundTrip` | sh.c:327-446 | however a form is written, the parser reads it back as the tree it means |
| `ShellForms.ReadForm` | sh.c:327-446 | and whatever the parser accepts is a form so written |
| `ShellForms.ParseIff` | sh.c:327-446 | a line parses to a tree exactly if it is a way to write a form that means the tree: pipes bind tighter than &, & tighter than ;, pipes and lists group to the right, and no line has two meanings |
| `ShellForms.ParsesExactly` | sh.c:327-446 | the trees that command lines parse to are exactly the well-formed ones |
| `Shell.GetToken` | sh.c:265-308 | the loops of gettoken find the token, its bounds and the next position |
| `Shell.Peek` | sh.c:310-320 | skips white space, keeps the tokens to come, and tells whether the next character is one of toks |
| `Shell.ParseRedirs` | sh.c:374-397 | agrees with the grammar on the tokens from s on, result and position |
| `Shell.ParseArgs` | sh.c:425-443 | the same for the argument loop; which arguments that gives is SimpleIff |
| `Shell.ParseExec` | sh.c:415-446 | the same for a command |
| `Shell.ParseBlock` | sh.c:399-413 | the same for a parenthesised line |
| `Shell.ParsePipe` | sh.c:361-372 | the same for a pipeline |
| `Shell.ParseLine` | sh.c:344-359 | the same for a line |
| `Shell.NulTerminate` | sh.c:449-493 | writes a NUL at the end of every word of the tree and nowhere else |
| `Shell.ReadsBack` | sh.c:449-493 | after that, every argv and file pointer reads as exactly its token |
| `Shell.ParseCmd` | sh.c:327-342 | panics exactly if the line means nothing; otherwise the tree, read through its pointers in the cut-up buffer, is the one tree that the line means |

## Left out

- Device and boot code, the console, and the asynchronous disk driver: the disk is synchronous, as in memide.c.
- Directories, paths, links and the file table (`dirlink`, `namex`, sysfile.c), and `ialloc`, `iget`, `iput`: link counts need assumptions about `create` that the code does not establish.
- exec.c, `loaduvm`, `copyout`: ELF loading and copying between address spaces; page contents are not modelled.
- The alarm and lazy-allocation code in trap.c and `sys_sbrk`, which grows a process without mapping pages; properties of vm.c are stated per function for that reason.
- `ilock` reading an inode from disk: not an operation here; `Valid` of the inode layer says that what it would read is the inode in memory.
- Device files: `readi` and `writei` on T_DEV inodes call a driver.
- `runcmd`, `getcmd`, the utilities and the line buffering of grep.
- spinlock.c: acquire and release are atomic steps; memory ordering is not modelled.
- Liveness: that begin_op is admitted in the end, that a sleeper runs again under a fair scheduler.
- Pids and ticks beyond 2^31; the pid counter does not wrap.
- Log.Log.BeginOp: one pass of the loop; the sleep between passes is a result, not a wait.
- Safety: for runs that stay inside the log area, because of the counterexample `OverrunCorrupts`; so are the other theorems about runs that require `Inside`.
- LoadStep: in the log protocol the cache always has room for another block; `ReadLogBlock` says when it does not.
- Log.Log.Bwrite: the panic of bwrite on a buffer that is not locked is not modelled; nor is the locking of buffers.
- BufferCache.Cache.Bget: does not take the buffer's sleep lock, which `SleepLock` models on its own.
- BufferCache.Cache.Brelse: does not test or release that lock.
- FileSystem.Fs.constructor: the empty disk, before mkfs adds the root directory and the programs.
- Itrunc: iput runs it together with other updates in one operation; the bound is for the truncation alone.
- Pipe.Pipe.Write: one stretch under the pipe's lock, with going to sleep at its end; `PipeSleep` has sleep() in steps. The same holds for Pipe.Pipe.Read and Pipe.Pipe.Kill.
- NoPipeWakeupLost: for runs in which no writer has given up in debt so far, because of the counterexample `GivingUpCanLose`.
- CrashLeavesWholeOperations: the inode locks that make concurrent operations serializable are not modelled; that their block writes are those of whole operations in some order is part of `FsRun`.
- Malloc: takes the region that sbrk would return as a parameter and requires it to be new; for requests of 2 gigabytes or more sbrk is asked for something else (`SbrkArgumentIff`).
- Mappages: a user range is a single page with its frame in hand, as in every call of the source; frames are page-aligned.
- Deallocuvm: for oldsz up to KERNBASE, as in every call; above it the function would free kernel pages.
- Kfree: the test that the address lies in physical memory is replaced by the page being allocated.
- Exit: by a process that is not in the middle of a fork, which the source guarantees since one process runs one system call at a time; the same holds for AllocProc and Wait.
- ParseExec: the EXEC node is filled in place below its redirections in the source; here `AddWord` rebuilds the tree, and `SimpleIff` says that the arguments come out in order.
- The reads of invalid buffers from disk (`iderw`) in bio.c.
