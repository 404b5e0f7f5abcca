# Verified models of xv6-riscv

A Dafny 4.11 project that models the parts of this kernel and its user programs where state must
survive crashes, interleavings and failure paths, and proves what those parts are for. Each module
stands beside a source file or a layer of it.

| modules | source | what is proved |
|---|---|---|
| `CrashLog`, `LogSpace`, `Log` | `kernel/log.c` | a commit is atomic under any crash, also in the middle of any number of recoveries, over any number of transactions and power cycles; the log never runs out of room exactly when operations log fewer than MAXOPBLOCKS blocks, and begin_op sleeps exactly when its reserve does not fit; the code over the buffer cache issues exactly the disk writes that the crash analysis cuts, and whoever has a buffer locked keeps lock and contents through every call |
| `Operations` | `kernel/log.c`, `kernel/bio.c` | a whole operation, from `begin_op` through bread, change, `log_write` and `brelse` of each block to `end_op` and commit: what is in memory and on disk afterwards |
| `BufferCache`, `CacheRuns` | `kernel/bio.c` | in every interleaving one buffer per block, readers see the latest contents, blocks not yet installed are never evicted, and the LRU ring is in order of final release; counts, contents and the ring are what the calls of a run made them, and bget recycles the buffer released longest ago |
| `FileBlocks`, `Fs` | `kernel/fs.c`, `kernel/file.c` | every block has one owner; reads and writes are slices and splices of a byte sequence; truncation frees exactly a file's blocks; whatever a write or truncation changes on disk is logged, and a chunk of `filewrite` logs at most seven blocks |
| `CrashFs`, `Durability` | `kernel/fs.c`, `kernel/file.c`, `kernel/log.c` | the two put together: turns of writes and truncations, of any files in any order, that are committed together are all there or none after any crash, and over any number of commits, crashes and power cycles exactly the files of the committed groups are there |
| `Directories`, `Sysfile` | `kernel/fs.c`, `kernel/sysfile.c` | link counts equal names, names are unique, directories form a tree, and exactly the unnamed inodes that nobody has open are freed; when each call succeeds, and what it does to every lookup, inode and reference |
| `PageTable`, `Vm` | `kernel/vm.c`, `kernel/kalloc.c`, `kernel/proc.c` | Sv39 tables (section 4.4 of the RISC-V Privileged Architecture, version 20211203) as maps; every page is free, in one table, or a table; growth and copying fail exactly when the free pages are too few for pages and tables, and are then undone; freeing returns every page, and a process's memory never touches another's |
| `Processes`, `Lifecycle`, `PriorityLists` | `kernel/proc.c` | no child's exit is lost and no process runs on two CPUs, in every interleaving; which steps change a process's state, parent and killed flag, when wait returns, reaps or sleeps, and that no lock is held for good; priority lists stay lists exactly while nobody is added twice |
| `Pipe` | `kernel/pipe.c` | bytes come out as they went in although the counters wrap; who may sleep, and the one case where a sleeper is forgotten |
| `VirtQueue`, `VirtioDisk` | `kernel/virtio_disk.c` | descriptors and rings (sections 2.6 and 5.2 of VIRTIO 1.1): three per request, every completion finds its buffer, 16-bit indices may wrap |
| `FreeList`, `Umalloc` | `user/umalloc.c` | free and live blocks tile the heap, the free list is fully coalesced, both searches end, and malloc takes the first fit after the last one |
| `Grammar`, `Syntax`, `Shell` | `user/sh.c` | a grammar of the command language: the parser ends on every line, accepts exactly the texts of sentences, wherever their space is, and gives exactly their meaning; every command tree has a text; nulterminate leaves every word intact |
| `Matchers` | `user/grep.c`, `user/find.c` | both matchers decide the meaning of the pattern, and agree |

The usual shape of an imperative layer is this. A `View` datatype holds the abstract state together
with ghost maps that name the owner of every block, page, descriptor or unit, so that "owned by
exactly one" is built into the type and the invariant `Ok()` ties the maps to the data. A spec
function gives the new view of each operation, a lemma shows that it keeps `Ok()`, and the class
method is proved to leave its real arrays and fields as the spec function says. `Sound` is the type
of views that satisfy `Ok()`; a class whose ghost view has that type keeps the invariant over every
sequence of calls. `Counting` holds the arithmetic of set sizes and ring slots that several modules
share. Protocols between processes are state machines over their lock-protected steps.

Four promises turn out to hold only under a condition that the code does not check. Each has a
counterexample and an exact condition:

- The log has a reserve of MAXOPBLOCKS (10) blocks for each operation, but the header takes one of
  its thirty: three operations of ten blocks each run into the panic (`LogSpace.TenBlocksPanic`).
  The panic is unreachable if and only if operations log at most nine (`LogSpace.NeverPanicsIff`).
- A file or directory made in a directory that has been removed but is still open breaks the link
  counts or the tree (`Directories.RemovedDirectoryLosesFile`); an entry keeps the invariant if and
  only if its directory has links (`MadeFileOkIff`, `MadeDirOkIff`, `LinkedOkIff`).
- A pipe writer that is killed between two bytes of one turn returns without waking the reader that
  slept on the empty pipe (`Pipe.KilledWriter`); `Pipe.Pipe.WriteTurn` states when exactly.
- fork's exit for a failed copy frees the child without unlinking it from its priority list; adding
  the slot again makes the list run in a circle or into another one (`PriorityLists.AddedTwice`).
  The lists survive an add if and only if the process was not linked (`AddKeepsListsIff`).

One error exit turns out to be dead: the trapframe's page lies under the tables that mapping the
trampoline has just made, so the second `mappages` of `proc_pagetable` cannot fail
(`Vm.Vm.ProcPagetable`).

## Model

| member | source | states |
|---|---|---|
| CrashLog.CommitAtomic | kernel/log.c:68-203 | commit cut after any write, then recovery cut any number of times: all home blocks are new when the first header write reached the disk, otherwise all old; recovering again changes nothing |
| CrashLog.CommitCut | kernel/log.c:178-203 | after any number of commit's writes the disk either has an empty log and old home blocks, or the whole transaction pending, or is done |
| CrashLog.RecoverCut | kernel/log.c:116-123 | a recovery cut short leaves the committed transaction pending; a complete one installs it and erases the header |
| CrashLog.RebootClean | kernel/log.c:116-123 | with nothing committed, any number of cut recoveries changes no block |
| CrashLog.RebootPending | kernel/log.c:68-123 | with a transaction committed, cut recoveries followed by a complete one install all of it and leave a clean log |
| CrashLog.RunAtomic | kernel/log.c:178-203 | over a run of transactions and a crash anywhere, exactly those whose header write reached the disk survive, in order |
| CrashLog.BootsDurable | kernel/log.c:54-203 | over any number of power cycles the home blocks hold the committed transactions of every cycle, in order, and nothing else |
| CrashLog.InstallAll | kernel/log.c:68-83 | install_trans run to its end makes home equal to the transaction applied all at once |
| LogSpace.InvStep | kernel/log.c:126-175 | the reservation invariant is kept by every step of every interleaving of begin_op, log_write, end_op and commit |
| LogSpace.LogNeverFills | kernel/log.c:126-235 | if operations log at most nine blocks: at most 28 are ever logged, commit never overlaps an operation, and an idle log is empty |
| LogSpace.TenBlocksPanic | kernel/log.c:214-235 | three admitted operations of ten blocks each reach the "too big a transaction" panic of a thirty-block log |
| LogSpace.RunIs | kernel/log.c:126-235 | after any run the counters and the block list are what the calls made them: operations begun and not ended, the blocks logged since the last commit, each once, and whether the last operation's commit is under way |
| LogSpace.SleepsIff | kernel/log.c:126-142 | begin_op sleeps exactly while a commit is under way, or while the blocks logged and MAXOPBLOCKS for each operation in progress and the new one exceed LOGSIZE |
| LogSpace.NeverPanicsIff | kernel/log.c:126-235 | the panics of log_write and end_op are unreachable if and only if the limit per operation is below MAXOPBLOCKS |
| Log.Log.constructor | kernel/log.c:54-65 | the log's fields before recovery |
| Log.Log.WriteLogBlock | kernel/log.c:178-191 | one iteration copies the latest contents of a home block into its log block, on disk |
| Log.Log.InstallBlock | kernel/log.c:68-83 | one iteration copies a log block to its home, on disk, and unpins it unless recovering |
| Log.Log.WriteHead | kernel/log.c:102-114 | the header block on disk becomes the in-memory list of blocks |
| Log.Log.WriteLog | kernel/log.c:178-191 | all logged blocks are in the log area and nothing else is written, beside any holders of other blocks, who keep buffer, lock and contents |
| Log.Log.InstallTrans | kernel/log.c:68-83 | all of the transaction is written home, in order, and nothing else; others keep the buffers they use, with lock and contents |
| Log.Log.Commit | kernel/log.c:193-203 | the disk writes of commit are exactly the sequence that CommitAtomic cuts; afterwards the header is empty, no block is pinned, and whoever uses or holds a buffer still does, with the same contents |
| Log.Log.ReadHead | kernel/log.c:86-97 | the in-memory header becomes the block list on disk |
| Log.Log.Recover | kernel/log.c:116-123 | the disk writes of recovery are exactly the sequence that RecoverCut cuts |
| Log.Log.TryBegin | kernel/log.c:126-142 | an operation is admitted exactly when no commit runs and the blocks logged and MAXOPBLOCKS for each operation in progress and the new one fit in LOGSIZE, in the log's own fields |
| Log.Log.LogWrite | kernel/log.c:214-235 | the block is in the header once (absorption), pinned once, and its contents in memory become the latest; a step of LogSpace; the caller still holds the buffer with its contents, and so does every other holder |
| Log.HoldersKeep | kernel/log.c:178-235 | what the log's calls leave alone: a buffer that is locked and read in is the same buffer, locked, with the same contents afterwards |
| Log.Log.EndOp | kernel/log.c:146-175 | the operation is over; commit is due exactly when it was the last one |
| Log.Log.EndCommit | kernel/log.c:146-175 | committing ends and waiting operations may start |
| Log.CommitCrashSafe | kernel/log.c:178-203 | cut the writes that Commit issued anywhere: the home blocks hold all of the transaction or none |
| Log.CommitInstalls | kernel/log.c:193-203 | without a crash, every logged block is on disk with its latest contents and the log is ready for the next transaction |
| Operations.Update | kernel/log.c:205-235 | bread, change, log_write, brelse: the block is logged and has the new contents in memory, the disk is as it was, and every other use of the cache stays |
| Operations.UpdateAll | kernel/log.c:205-235 | any number of such changes in one operation: memory has them applied in order, exactly their blocks are logged and pinned, each once, and no panic is reached within the limit |
| Operations.Operation | kernel/log.c:126-235 | begin_op to end_op: refused exactly when begin_op sleeps; beside other operations nothing reaches the disk; the last operation issues exactly commit's writes, and then the home blocks on disk are the latest contents and the log is empty |
| Operations.Committed | kernel/log.c:146-203 | after the last operation's commit every home block on disk is as in memory, those logged by earlier operations included |
| Operations.EndReady | kernel/log.c:146-175 | at end_op of any operation within the limit no panic is reached, and for the last one what commit counts on holds |
| BufferCache.UnlinkLinked | kernel/bio.c:116-137 | taking a buffer out keeps the ring linked both ways through the remaining ones in order |
| BufferCache.PushFrontLinked | kernel/bio.c:36-53 | putting a buffer after the head keeps the ring linked both ways with it in front |
| BufferCache.MoveFrontLinked | kernel/bio.c:116-137 | brelse's six stores realise "move to front" on the order |
| BufferCache.OrderIsRecency | kernel/bio.c:116-137 | the ring is sorted by last final release |
| BufferCache.ReleaseRecorded | kernel/bio.c:116-137 | a step moves a buffer exactly when brelse gives up its last reference, pins included, and then to the front; every other step leaves the order |
| BufferCache.RecycledOk | kernel/bio.c:58-89 | giving an unreferenced buffer to another block loses no contents |
| BufferCache.NextOk | kernel/bio.c:58-151 | every step of every process keeps the cache coherent and the ring in order |
| BufferCache.ReachableOk | kernel/bio.c:36-151 | so does every run from boot |
| BufferCache.BreadLatest | kernel/bio.c:92-103 | whoever locks and fills a buffer sees the contents last logged or written |
| BufferCache.UninstalledStays | kernel/bio.c:139-151 | a block whose latest contents are not on disk keeps its buffer in every step |
| BufferCache.OneBufferPerBlock | kernel/bio.c:58-89 | for a real device at most one buffer holds a block |
| BufferCache.InitRing | kernel/bio.c:36-53 | binit's loop links every buffer once |
| BufferCache.Bcache.constructor | kernel/bio.c:36-53 | an empty, sound cache over the disk |
| BufferCache.Bcache.FindCached | kernel/bio.c:58-89 | the first loop of bget finds the block's buffer if and only if it is cached |
| BufferCache.Bcache.FindVictim | kernel/bio.c:58-89 | the second loop finds the least recently used unreferenced buffer, or all are referenced |
| BufferCache.Bcache.Bget | kernel/bio.c:58-89 | a reference to the one buffer of the block; the panic means every buffer is referenced |
| BufferCache.Bcache.Bread | kernel/bio.c:92-103 | the buffer is locked and holds the block's latest contents; no other lock is taken, and whoever uses another block keeps buffer, lock and contents |
| BufferCache.Bcache.Bwrite | kernel/bio.c:106-112 | the buffer's contents are on disk and are the latest |
| BufferCache.Bcache.Bpin | kernel/bio.c:139-144 | one more pin on the block, nothing else |
| BufferCache.Bcache.Bunpin | kernel/bio.c:146-151 | one pin fewer on the block, nothing else |
| BufferCache.Bcache.DropRef | kernel/bio.c:116-137 | one reference fewer; the last one moves the buffer to the front |
| BufferCache.Bcache.Brelse | kernel/bio.c:116-137 | unlock and drop one reference, whoever else has or waits for the block; users of other blocks keep buffer, lock and contents |
| CacheRuns.RunAgrees | kernel/bio.c:58-151 | after any run, a block's uses are its bgets less its brelses, its pins the bpins less the bunpins, its buffer the one last recycled for it, its latest contents what was last stored before its last log_write or bwrite |
| CacheRuns.RunReleases | kernel/bio.c:116-137 | the history that orders the ring is the sequence of buffers whose count brelse brought to zero |
| CacheRuns.VictimOldest | kernel/bio.c:75-88 | in every run the buffer that bget recycles was released longest ago among the unreferenced ones, those never released first |
| FileBlocks.GrownByOne | kernel/fs.c:382-421 | a block added to a slot of a file keeps every other address and every owner |
| FileBlocks.GrownHolds | kernel/fs.c:382-421 | growth changes no byte of any file |
| FileBlocks.SevenBlocks | kernel/file.c:147-157 | a write of up to three blocks' worth of bytes at any offset touches at most seven blocks on a disk with one bitmap block |
| FileBlocks.SpliceTwice | kernel/fs.c:517-527 | consecutive chunk writes compose to one splice |
| FileBlocks.OthersHold | kernel/fs.c:505-539 | a write to one file leaves bytes and size of every other, also of one that is being written |
| FileBlocks.UnusedStep | kernel/fs.c:425-453 | the next address itrunc looks at is either zero or a block in use that no earlier turn freed, so "freeing free block" cannot happen |
| FileBlocks.TruncatedOk | kernel/fs.c:425-453 | after truncation every block still has one owner and other files keep their addresses |
| FileBlocks.TruncatedLogged | kernel/fs.c:425-453 | a bitmap bit changes exactly for the file's blocks, to free, and every block of the disk that changes is logged |
| FileBlocks.AccountedTrans | kernel/fs.c:505-539 | steps whose changes are logged and confined to one file's range compose |
| FileBlocks.AccountedOne | kernel/fs.c:382-421 | so for balloc followed by bmap's store |
| FileBlocks.TruncatedHolds | kernel/fs.c:425-453 | the file is empty and every other file has its bytes and inode, also one that is being written |
| Fs.Fs.constructor | mkfs/mkfs.c:93-112 | exactly the metadata blocks are in use, every block is zero, every inode is empty |
| Fs.FormattedOk | mkfs/mkfs.c:93-112 | that is a sound file system in which every file is empty |
| Fs.Fs.FindFree | kernel/fs.c:65-88 | balloc's nested loops find the lowest free block or show there is none |
| Fs.Fs.Balloc | kernel/fs.c:65-88 | the lowest free block, zeroed and of its own, or 0 exactly when the disk is full |
| Fs.Fs.Bmap | kernel/fs.c:382-421 | the block of a file position, allocated when missing, with the indirect block if needed, and nothing else allocated; 0 only when the disk is full; every changed block is logged |
| Fs.Fs.Writei | kernel/fs.c:505-539 | the file becomes its old bytes with the returned prefix spliced in; short only when the disk is full; -1 exactly for a bad range; only this file's blocks in the range are allocated, and every block of the disk that changes is logged |
| Fs.Fs.WriteLoop | kernel/fs.c:517-531 | the chunk loop stores exactly the prefix it counts and logs only the blocks it touches |
| Fs.Fs.Readi | kernel/fs.c:471-496 | the slice of the file in the range; nothing is allocated or changed |
| Fs.Fs.Bfree | kernel/fs.c:91-105 | a block in use becomes free |
| Fs.Fs.Itrunc | kernel/fs.c:425-453 | exactly the file's blocks become free, those past its size too, and no other inode changes |
| Fs.Fs.FreeDirect | kernel/fs.c:431-436 | the direct blocks are freed and their addresses cleared |
| Fs.Fs.FreeEntries | kernel/fs.c:438-446 | every block named in the indirect block is freed |
| Fs.Fs.WriteOp | kernel/file.c:155-174 | one transaction of filewrite logs at most seven blocks, among them every block it changes |
| Fs.Fs.ChunkOp | kernel/fs.c:516-528 | one turn of writei's loop: its bytes are spliced in or the disk is full, the size is not yet changed, and every changed block is logged |
| Fs.Fs.UpdateOp | kernel/fs.c:530-538 | the end of writei: the size becomes the number of bytes stored, and the inode's block is logged |
| Fs.Fs.Filewrite | kernel/file.c:134-181 | the stored prefix is spliced in at the offset, which moves past it; the result is n exactly when all is stored; it stops short only when the disk is full, the offset is past the end, or at the chunk that would exceed the largest file; no transaction logs more than seven blocks |
| CrashFs.CommitOfImage | kernel/log.c:193-203 | after a crash anywhere in a commit and in any number of recoveries the disk holds the file system before or after, the latter exactly when the header write was made, for whatever was logged together |
| CrashFs.WriteCovered | kernel/file.c:155-174 | a transaction of filewrite logs every block whose contents on disk change, only home blocks, and at most seven |
| CrashFs.TruncateCovered | kernel/fs.c:425-453 | so truncation logs every block it changes, at most two, whatever its operation logged before |
| CrashFs.CoveredTrans | kernel/log.c:146-175 | operations are covered by the union of what they log |
| CrashFs.ChunkCovered | kernel/fs.c:516-528 | one turn of writei's loop changes only blocks it logs and the inode's block, which the end of writei logs |
| CrashFs.UpdateCovered | kernel/fs.c:530-538 | the end of writei changes only the inode's block |
| Durability.RanFiles | kernel/fs.c:505-539 | each turn changes its file as a splice, a new size or a truncation does, and no other file |
| Durability.RunsCovered | kernel/log.c:146-175 | turns of any operations in any order are covered by the union of what they log and the inode blocks still to be logged |
| Durability.RunsQuiet | kernel/fs.c:505-539 | when every write that began has ended, every file is exactly its bytes again |
| Durability.QuietFile | kernel/fs.c:471-496 | and then readi sees exactly those bytes of each |
| Durability.GroupAtomic | kernel/file.c:155-174 | writes and truncations of any files by any processes, turn by turn in any order, committed together: after a crash in the commit and in any recoveries every file has its contents from before all of them, or every file from after, in a sound file system |
| Durability.CommitIsGroup | kernel/log.c:178-191 | the transaction that commit takes from the buffer cache is that of the group |
| Durability.CommittedFiles | kernel/log.c:193-203 | so the disk writes that the method Commit issued, cut anywhere, leave the files of before or after |
| Durability.WritesImage | kernel/log.c:205-235 | changing the logged blocks in memory as an operation does turns the image of the file system before into that of the one after |
| Durability.ChainInstalls | kernel/log.c:193-203 | installing the transactions of a chain of groups one by one gives the image of the file system after them |
| Durability.FilesDurable | kernel/log.c:54-203 | over any number of power cycles, each with any number of groups, a crash anywhere and any number of cut recoveries, the disk holds a sound file system with exactly the files of the groups whose headers reached the disk |
| Directories.Tree | kernel/sysfile.c:245-302 | from every linked directory ".." leads to the root |
| Directories.Acyclic | kernel/sysfile.c:245-302 | and never back to a directory below the root |
| Directories.OneName | kernel/sysfile.c:188-243 | every linked directory but the root has exactly one proper name |
| Directories.UniqueName | kernel/fs.c:551-606 | names are unique up to DIRSIZ in each directory |
| Directories.FreedUnnamed | kernel/fs.c:336-362 | an inode without links has no name in any linked directory |
| Directories.ReleasedOk | kernel/fs.c:336-362 | iput keeps the invariant, also when it frees the inode |
| Directories.LookedUp | kernel/fs.c:579-606 | taking and dropping a reference to a named inode changes nothing |
| Directories.LinkBegunOk | kernel/sysfile.c:123-170 | link's early nlink++ keeps the invariant, with the link counted as pending |
| Directories.LinkUndoneOk | kernel/sysfile.c:123-170 | so does the nlink-- of its bad exit |
| Directories.LinkedOk | kernel/sysfile.c:123-170 | so does the completed link |
| Directories.MadeFileOk | kernel/sysfile.c:245-302 | create of a file or device keeps counts, names and tree |
| Directories.MadeDirOk | kernel/sysfile.c:245-302 | so does create of a directory, with ".." counted for the parent |
| Directories.NamesAfterMkdir | kernel/sysfile.c:245-302 | a new directory brings exactly two counted names: its own, and ".." for its parent |
| Directories.EmptyHasOneName | kernel/sysfile.c:188-243 | a directory that isdirempty accepts has link count one |
| Directories.NamesAfterUnlink | kernel/sysfile.c:188-243 | unlink removes exactly one name, and for a directory its ".." |
| Directories.UnlinkedOk | kernel/sysfile.c:188-243 | unlink keeps counts, names and tree |
| Directories.LookupAfterEntry | kernel/fs.c:551-606 | a new entry binds one name and leaves every other lookup |
| Directories.LookupAfterUnlink | kernel/sysfile.c:188-243 | unlink unbinds one name and leaves every other lookup |
| Directories.MadeFileOkIff | kernel/sysfile.c:245-302 | a file made in a directory keeps the invariant if and only if the directory has links |
| Directories.MadeDirOkIff | kernel/sysfile.c:245-302 | a directory made in a directory fits the tree, with some parent and depth, if and only if the directory it is made in has links |
| Directories.LinkedOkIff | kernel/sysfile.c:123-170 | so for a link |
| Directories.RemovedDirectoryLosesFile | kernel/sysfile.c:245-302 | a reachable state in which create breaks the link counts |
| Sysfile.Inodes.constructor | mkfs/mkfs.c:117-128 | a root directory that is its own parent, and free inodes |
| Sysfile.Inodes.Dirlookup | kernel/fs.c:551-575 | the slot of the name, up to DIRSIZ, or none |
| Sysfile.Inodes.Dirlink | kernel/fs.c:579-606 | succeeds exactly for a new name with a slot to spare; then one entry more, otherwise no change |
| Sysfile.Inodes.Isdirempty | kernel/sysfile.c:173-186 | true exactly when only "." and ".." are in use |
| Sysfile.Inodes.Ialloc | kernel/fs.c:198-219 | the first free inode, or 0 when none is free |
| Sysfile.Inodes.Iput | kernel/fs.c:336-362 | one reference fewer; the last one to an inode without links frees it |
| Sysfile.Inodes.LinkBegin | kernel/sysfile.c:123-147 | a directory is refused; otherwise a link is pending |
| Sysfile.Inodes.LinkEnd | kernel/sysfile.c:149-169 | the pending link becomes an entry, or is taken back on every error exit; the invariant stays when the parent has links |
| Sysfile.Inodes.Unlink | kernel/sysfile.c:188-243 | succeeds exactly when the name is not "." or "..", is found, and stands for no directory or for one with nothing after its first two entries; the new state in both cases; the nlink panic is unreachable |
| Sysfile.Inodes.Create | kernel/sysfile.c:245-302 | an existing file or device for a file, the first free inode under a new name, or 0 with the state as before but for the reference; which of them, exactly, by what the name stands for, free inodes and room; the invariant stays when the directory has links |
| Sysfile.PutFreesIff | kernel/fs.c:336-362 | iput frees an inode exactly when the reference was the last and no name and no half-done link leads to it |
| Sysfile.UnlinkMeans | kernel/sysfile.c:188-243 | after unlink the name is gone and every other lookup is as before; the inode has one link fewer and is freed exactly when it had one and nobody has it open |
| Sysfile.CreateMeans | kernel/sysfile.c:245-302 | after create the name leads to an inode of the kind asked for with one link and one reference; a directory leads back by "." and ".." and is empty; every other lookup and inode is as before |
| Sysfile.LinkMeans | kernel/sysfile.c:123-170 | after link the name leads to the inode, and every other lookup and inode is as before |
| Sysfile.LinkWhole | kernel/sysfile.c:123-170 | over both halves of link the inode gains exactly one link and the name |
| Sysfile.BadLinkUndone | kernel/sysfile.c:123-170 | a link that fails leaves the table as if the inode had only been looked up |
| PageTable.PackUnpack | kernel/riscv.h:350-378 | packing an address and flags into a PTE and unpacking are inverse |
| PageTable.AllocatedOk | kernel/kalloc.c:68-82 | kalloc keeps every page with one owner |
| PageTable.FreedOk | kernel/kalloc.c:46-63 | so does kfree |
| PageTable.FreedThenAllocated | kernel/kalloc.c:46-82 | the page freed last is handed out first, and owners, translations and the rest of the list are as they were |
| PageTable.NodeAddedOk | kernel/vm.c:85-103 | so does walk's new table |
| PageTable.NodeAddedEntries | kernel/vm.c:85-103 | which changes no translation |
| PageTable.EntrySetOk | kernel/vm.c:143-199 | so does mapping or unmapping one page |
| PageTable.EntrySetEntries | kernel/vm.c:143-199 | which changes one translation of one table |
| PageTable.DetachedOk | kernel/vm.c:278-294 | so does freeing an empty table |
| PageTable.ExtendThenShrink | kernel/vm.c:232-274 | growth that is rolled back changes no translation and no data page |
| PageTable.LeavesBound | kernel/vm.c:232-256 | a table maps at most as many user pages as memory has |
| PageTable.TookTrans | kernel/vm.c:85-103 | pages and tables taken in two steps add up, tables that both need counted once |
| PageTable.PaidStep | kernel/vm.c:239-254 | one more fresh page costs one page and the tables it is the first to need |
| PageTable.PaidShort | kernel/vm.c:239-254 | where the next page cannot be paid for, the whole range could not be |
| PageTable.ReclaimedBy | kernel/vm.c:278-304 | unmapping all user pages and freeing the tree returns every page of the table |
| PageTable.BuiltAndReclaimed | kernel/proc.c:189-219 | building a table and taking it apart leaves every page where it was |
| Vm.Vm.constructor | kernel/kalloc.c:33-40 | every page of memory is free, each once |
| Vm.Vm.Freerange | kernel/kalloc.c:33-40 | all pages are handed to kfree |
| Vm.Vm.Kfree | kernel/kalloc.c:46-63 | the page joins the free list; the panics are unreachable for a page in no table |
| Vm.Vm.Kalloc | kernel/kalloc.c:68-82 | a free page for the kernel, or 0 exactly when none is free |
| Vm.Vm.Walk | kernel/vm.c:85-103 | the place of the level-0 entry; with alloc, exactly the missing tables are added, one page each, no translation changes, and it fails exactly when they outnumber the free pages |
| Vm.Vm.Mappages | kernel/vm.c:143-172 | the page numbers map to consecutive pages, all of them exactly when the free pages suffice for the missing tables, otherwise the prefix it reports; every other translation, every other page's owner and contents and every table stay, and remap cannot panic |
| Vm.Vm.Uvmunmap | kernel/vm.c:177-199 | the range loses its translations and its pages become free, nothing else changes |
| Vm.Vm.Uvmdealloc | kernel/vm.c:262-274 | the user pages beyond the new size are freed, nothing else changes, and a table sized for the old size is sized for the new |
| Vm.Vm.Uvmalloc | kernel/vm.c:232-256 | zeroed pages up to the new size exactly when the free pages are as many as the new pages and the tables missing for them, of which each takes one; otherwise 0 with every translation and data page as before |
| Vm.Vm.Uvmcopy | kernel/vm.c:312-340 | the child has its own copy of every page with equal flags and contents exactly when the free pages are as many as the pages and the child's missing tables; otherwise nothing |
| Vm.PagesIs | kernel/riscv.h:353 | PGROUNDUP is the least number of pages that hold the bytes |
| Vm.Vm.Freewalk | kernel/vm.c:278-294 | a table and all below it become free; the leaf panic is unreachable |
| Vm.Vm.Uvmfree | kernel/vm.c:298-304 | every page of the table becomes free and nothing else changes |
| Vm.Vm.Uvmcreate | kernel/vm.c:203-212 | an empty table, or 0 when no page is free |
| Vm.TwoMissing | kernel/proc.c:189-219 | a new table lacks exactly two tables for the trampoline, and the trapframe needs the same two |
| Vm.Vm.ProcPagetable | kernel/proc.c:189-219 | a table with exactly trampoline and trapframe, three pages from the free list, and every other table, page and contents as before; or, exactly when fewer than three pages are free, 0 with every page and its contents back; its second error exit is never taken |
| Vm.Vm.Allocproc | kernel/proc.c:116-159 | the memory of a process: a trapframe page and a table that maps it, four pages in all, nobody else's memory touched; or, exactly when fewer than four pages are free, nothing at all |
| Vm.Vm.Freeproc | kernel/proc.c:165-185 | gives back the memory of a process: owners, translations and contents are those from before it was made, whatever it did to its own memory since |
| Vm.PrivateMade | kernel/proc.c:116-159 | a trapframe page and a table beside everything else are private to the process |
| Vm.PrivateGrows | kernel/vm.c:232-256 | growth of the process keeps its memory private |
| Vm.PrivateShrinks | kernel/vm.c:262-274 | so does shrinking |
| Vm.PrivateFreed | kernel/proc.c:165-185 | freeing private memory leaves memory as it was before the process |
| Vm.Vm.ProcFreepagetable | kernel/proc.c:223-229 | everything of the table is free but trampoline and trapframe |
| Processes.NoLostExit | kernel/proc.c:343-452 | with wait_lock free, nobody sleeps in wait while a child is a zombie |
| Processes.OneCpu | kernel/proc.c:461-543 | at most one CPU has a process, and with p->lock free it is RUNNING exactly when one does |
| Processes.ZombieHasParent | kernel/proc.c:343-403 | every zombie has a living parent, and each death is reaped at most once |
| Processes.ReapOk | kernel/proc.c:422-437 | wait frees only a slot that is current on no CPU |
| Processes.AdoptOk | kernel/proc.c:343-354 | handing a child to init keeps the invariant: a wakeup of init is still to come |
| Processes.WokenOk | kernel/proc.c:602-616 | a turn of exit's wakeups leaves no sleeper behind it that has a zombie child |
| Processes.MarkOk | kernel/proc.c:389-401 | a process becomes a zombie only when its parent cannot be about to sleep |
| Processes.SleepReleaseOk | kernel/proc.c:571-598 | dropping wait_lock before sleeping is safe because p->lock is held |
| Processes.WaitScanOk | kernel/proc.c:407-452 | every turn of wait's scan keeps the invariant |
| Processes.ForkRunOk | kernel/proc.c:292-339 | a child becomes runnable only with its parent set |
| Processes.PickOk | kernel/proc.c:461-505 | the scheduler's switch to a process keeps the invariant |
| Processes.NextOk | kernel/proc.c:116-640 | every step of every CPU keeps the invariant |
| Processes.ReachableOk | kernel/proc.c:116-640 | so does every run from boot |
| Processes.EveryRun | kernel/proc.c:343-616 | the three properties in every interleaving |
| Lifecycle.Changes | kernel/proc.c:116-640 | for every step and process: exactly which step makes it RUNNING, SLEEPING, ZOMBIE, USED, UNUSED or RUNNABLE; kill marks and wakes it and only wait's freeing takes the mark away; fork sets its parent, its parent's exit hands it to init, wait clears it, and nothing else does |
| Lifecycle.ExitLeaves | kernel/proc.c:359-403 | a process that becomes a zombie has no children left, and a living parent that is not asleep in wait |
| Lifecycle.WaitEnds | kernel/proc.c:444-450 | in every interleaving the end of wait's scan returns without a child exactly when there is none or the process is killed, and otherwise goes to sleep, with no child a zombie |
| Lifecycle.WaitReaps | kernel/proc.c:418-437 | a zombie child is freed and wait is over, unless its status cannot be copied out; it is the first zombie child in the table |
| Lifecycle.WaitPasses | kernel/proc.c:418-442 | any other slot is passed by and nothing else changes |
| Lifecycle.LockHolderMoves | kernel/proc.c:461-640 | whoever holds a process lock can take a step |
| Lifecycle.WaitLockHolderMoves | kernel/proc.c:343-452 | whoever holds wait_lock runs, and can take a step or comes to a process whose lock is held |
| Lifecycle.SchedulerCan | kernel/proc.c:461-505 | an idle CPU can switch to exactly the runnable processes that no CPU has |
| Lifecycle.UserCan | kernel/proc.c:292-452 | from user code fork can take any unused slot, and wait and, but for init, exit can start exactly when wait_lock is free |
| Lifecycle.ForkCan | kernel/proc.c:292-339 | fork goes on exactly when wait_lock is free, and then nobody holds the child's lock |
| PriorityLists.WalkIs | kernel/proc.c:742-757 | the links from a head visit its list in order and then end |
| PriorityLists.AddedOk | kernel/proc.c:742-757 | adding an unlinked process keeps lists disjoint and in order |
| PriorityLists.RemovedOk | kernel/proc.c:761-786 | freeing takes out exactly that process |
| PriorityLists.AddThenFree | kernel/proc.c:742-786 | adding and freeing a process gives back lists, links and heads |
| PriorityLists.AddKeepsListsIff | kernel/proc.c:742-757 | the heads and links can be read as disjoint lists after an add if and only if the process was not linked |
| PriorityLists.AddedTwice | kernel/proc.c:302-308 | the first process and its child are added, fork gives the child up, and the next add of its slot links it to itself |
| PriorityLists.PriorityControl.constructor | kernel/proc.c:721-730 | empty lists |
| PriorityLists.PriorityControl.Add | kernel/proc.c:150-154 | the process is at the end of its list; the scan ends |
| PriorityLists.PriorityControl.Last | kernel/proc.c:742-757 | the scan finds the last process |
| PriorityLists.PriorityControl.Free | kernel/proc.c:761-786 | the process is in no list and the others keep their order; the scan ends |
| PriorityLists.PriorityControl.Before | kernel/proc.c:761-786 | the scan finds the process before it |
| Pipe.Pipe.constructor | kernel/pipe.c:22-46 | an empty open pipe with nobody asleep |
| Pipe.Pipe.Counters | kernel/pipe.c:84-121 | the tests for full and empty are right at every value of the 32-bit counters |
| Pipe.Pipe.WriteTurn | kernel/pipe.c:76-103 | which bytes go in and which exit is taken; nobody is left asleep wrongly, except exactly when the writer dies after its first byte beside a sleeping reader |
| Pipe.Pipe.ReadTurn | kernel/pipe.c:105-130 | the bytes taken are the oldest held, in order; which exit is taken; nobody is left asleep wrongly |
| Pipe.Pipe.Drain | kernel/pipe.c:120-126 | the copying loop takes the oldest bytes until n, empty or a fault |
| Pipe.Pipe.Close | kernel/pipe.c:58-74 | the end is closed, its waiters are awake, and the pipe is freed with the second end |
| Pipe.Pipe.Kill | kernel/proc.c:621-640 | a killed sleeper is awake, and the others are rightly asleep |
| Pipe.KilledWriter | kernel/pipe.c:83-87 | a run after which a reader sleeps beside a byte |
| VirtQueue.FreeCount | kernel/virtio_disk.c:155-213 | the free descriptors are NUM minus three per request in flight |
| VirtQueue.RingsFit | kernel/virtio_disk.c:271-277 | neither ring holds more than NUM unread entries |
| VirtQueue.SubmittedOk | kernel/virtio_disk.c:215-292 | publishing a request keeps the invariant |
| VirtQueue.DeviceTookOk | kernel/virtio_disk.c:271-281 | so does the device's reading of the avail ring |
| VirtQueue.DeviceDoneOk | kernel/virtio_disk.c:294-327 | so does its completion in the used ring |
| VirtQueue.UsedEntry | kernel/virtio_disk.c:312-321 | the next used entry is a request in flight with its own buffer on record and a good status |
| VirtQueue.NoticedOk | kernel/virtio_disk.c:312-324 | a turn of the interrupt handler keeps the invariant |
| VirtQueue.ReleasedOk | kernel/virtio_disk.c:288-289 | so does freeing the chain |
| VirtioDisk.Disk.constructor | kernel/virtio_disk.c:61-153 | all descriptors free and empty rings |
| VirtioDisk.Disk.AllocDesc | kernel/virtio_disk.c:155-166 | the descriptor was free and now is not, or none is free |
| VirtioDisk.Disk.FreeDesc | kernel/virtio_disk.c:168-182 | the descriptor is free and cleared |
| VirtioDisk.Disk.Alloc3 | kernel/virtio_disk.c:200-213 | three distinct free descriptors, or all given back and at most two free |
| VirtioDisk.Disk.GiveBack | kernel/virtio_disk.c:206-209 | the inner loop frees exactly those taken |
| VirtioDisk.Disk.FreeChain | kernel/virtio_disk.c:184-197 | exactly the three descriptors of the chain are freed; the loop ends and cannot panic |
| VirtioDisk.Disk.Submit | kernel/virtio_disk.c:215-281 | the request is queued with its buffer, or waits exactly because two are in flight |
| VirtioDisk.Disk.Complete | kernel/virtio_disk.c:283-291 | returns only after the device has finished and the handler has seen it; then the chain is free |
| VirtioDisk.Disk.DeviceTake | kernel/virtio_disk.c:271-281 | the device reads the entries in order, each once |
| VirtioDisk.Disk.DeviceFinish | kernel/virtio_disk.c:309-314 | a taken request gets its status and used entry |
| VirtioDisk.Disk.Intr | kernel/virtio_disk.c:294-327 | exactly the finished requests become seen and exactly their buffers are no longer busy; rings, descriptors and other requests are unchanged; the status panic is unreachable and wrapping indices do no harm |
| FreeList.CanonicalUnique | user/umalloc.c:24-44 | the free list is determined by the set of free units: coalescing is complete |
| FreeList.PutCanonical | user/umalloc.c:33-42 | free's two joins put the block in with no two blocks touching and exactly its units added |
| FreeList.CutCanonical | user/umalloc.c:75-82 | malloc's cut leaves an ordered list without touching blocks |
| FreeList.CutUnits | user/umalloc.c:75-82 | and takes exactly the last n units of the block |
| FreeList.LiveDisjoint | user/umalloc.c:63-90 | a live block shares no unit with another or with the free list |
| FreeList.AllocatedOk | user/umalloc.c:63-90 | handing out a block keeps the tiling, and the block was not live |
| FreeList.GrownOk | user/umalloc.c:46-61 | new units from sbrk keep the tiling |
| FreeList.ReturnedOk | user/umalloc.c:24-44 | freeing keeps the tiling |
| Umalloc.Heap.Free | user/umalloc.c:24-44 | the block leaves the live ones and its units join the free list in place |
| Umalloc.Heap.Place | user/umalloc.c:30-32 | the scan ends, from any start, at the one node after which the block belongs |
| Umalloc.Heap.Join | user/umalloc.c:33-43 | the stores to headers realise the two joins on the circular list |
| Umalloc.Heap.Morecore | user/umalloc.c:46-61 | one block now fits; exactly the new units join the arena; 0 when sbrk fails |
| Umalloc.Heap.Take | user/umalloc.c:75-84 | a new live block of n units, the arena unchanged |
| Umalloc.Heap.Malloc | user/umalloc.c:63-90 | the least number of units that hold the bytes and a header, not live before; the end of the first block after the last place that fits, which becomes the last place; the heap grows only when nothing fits, by those units and no fewer than 4096; 0 only when sbrk fails; the search ends |
| Umalloc.AtPlace | user/umalloc.c:30-32 | the scan's tests hold at the right node and at no other |
| Umalloc.RunInBlock | user/umalloc.c:46-61 | in a coalesced list a run of free units lies in one block |
| Grammar.LineSpans | user/sh.c:266-447 | every word in the result is a whole word of the line, at most MAXARGS-1 a command |
| Syntax.ParsesIff | user/sh.c:328-447 | the parser accepts a line and gives a command exactly when the line is a text of a sentence of the grammar that means the command |
| Syntax.TextReads | user/sh.c:328-447 | every text of a sentence, words and redirections of each simple command in any order, with any space between tokens, parses to the sentence's meaning |
| Syntax.ReadsText | user/sh.c:328-447 | whatever parses is a text of a sentence that means the result |
| Syntax.Accepts | user/sh.c:328-447 | the parser panics exactly on lines that are no text of any sentence |
| Syntax.SpacingIrrelevant | user/sh.c:266-321 | two lines with the same tokens fare the same: space matters only where it separates |
| Syntax.TrailingSpace | user/sh.c:266-321 | so a newline or other space at the end of any line changes neither acceptance nor the command |
| Syntax.Unambiguous | user/sh.c:345-447 | the tokens of a sentence determine its meaning |
| Syntax.SpellLexes | user/sh.c:266-309 | gettoken finds exactly the tokens that were spelled, given space between two words and between > and > or >> |
| Syntax.LexSpells | user/sh.c:266-309 | every line spells its tokens |
| Syntax.SentenceReads | user/sh.c:345-360 | where the tokens of a sentence stand, a line is read: series with their background marks, in a list to the right |
| Syntax.SeriesReads | user/sh.c:362-373 | a pipeline is read part by part, to the right |
| Syntax.UnitReads | user/sh.c:400-447 | a simple command or a parenthesised line is read with its redirections, in order |
| Syntax.ItemsRead | user/sh.c:430-443 | the words of a simple command are gathered in order, and so are its redirections, however they are mixed |
| Syntax.RedirsRead | user/sh.c:375-398 | redirections are gathered in order with their modes |
| Syntax.SentenceShape | user/sh.c:345-360 | what is accepted as a line has the tokens and the meaning of a sentence |
| Syntax.ItemsShape | user/sh.c:430-443 | what is accepted as a simple command is a mix of at most MAXARGS-1 words and of redirections |
| Syntax.SentenceWritten | user/sh.c:345-447 | every legal command is the meaning of a sentence with no more parentheses than precedence needs, and of one with any added |
| Syntax.RoundTrip | user/sh.c:266-447 | so every legal command parses back from its texts, with any spacing |
| Shell.Gettoken | user/sh.c:266-309 | the loops compute the next token |
| Shell.Peek | user/sh.c:311-321 | the loop computes whether one of the characters comes next |
| Shell.Parseredirs | user/sh.c:375-398 | the loop collects the redirections in order, or panics |
| Shell.Parseexec | user/sh.c:416-447 | a block or a simple command with its redirections |
| Shell.Parseargs | user/sh.c:430-443 | the loop collects words and redirections up to MAXARGS-1 words |
| Shell.Parseblock | user/sh.c:400-414 | a line in parentheses with redirections |
| Shell.Parsepipe | user/sh.c:362-373 | pipelines nest to the right |
| Shell.Parseline | user/sh.c:345-360 | background marks, then a list; the recursion ends on every line |
| Shell.Nulterminate | user/sh.c:450-494 | exactly the end marks of the command's words are cleared |
| Shell.EndsOutside | user/sh.c:450-494 | no end mark falls inside a word |
| Shell.CommandReads | user/sh.c:450-494 | every argv and file string then reads as its word |
| Shell.Parsecmd | user/sh.c:328-343 | for the line before the NUL: a panic exactly when it is no text of a sentence, otherwise the sentence's meaning, with its words as C strings of the buffer |
| Shell.RunsAsWritten | user/sh.c:328-343 | a buffer with a text of a sentence before its NUL, its newline and other space included, gives the meaning, word for word |
| Matchers.FindMeans | user/find.c:13-20 | find's match holds exactly when the pattern describes the whole string |
| Matchers.Matchhere | user/grep.c:85-96 | exactly when the pattern describes a beginning of the text |
| Matchers.Matchstar | user/grep.c:99-106 | exactly when a run of c and then the pattern do; the loop ends |
| Matchers.Match | user/grep.c:72-83 | at the beginning after "^", anywhere otherwise |
| Matchers.MatchersAgree | user/grep.c:72-106 | find on (s, p) is grep for ^p$ in s, for all s and p |

## Left out

- Disk block writes are atomic, and memory is sequentially consistent; spin locks and sleep locks are the atomicity of the steps.
- Log.Log.Commit: runs where nobody has the lock of a logged block or of a log block, and a buffer is left that nobody refers to; where it would wait for a lock, the wait is the step Lock of the cache's state machine.
- Log.Log.WriteLog: as for Commit.
- Log.Log.InstallTrans: as for Commit.
- Operations.Operation: runs without other processes in between, for blocks whose locks are free and with a buffer left for each; that its steps may interleave with others is LogSpace.InvStep for the log, BufferCache.NextOk for the cache and Durability.Runs for files.
- BufferCache.Bcache.Bread: for a block whose lock is free; waiting for it is the step Lock of the state machine.
- CrashFs: how bits and inodes are laid out in their blocks is any pair of functions; the disk has one bitmap block, as the one mkfs builds.
- Fs: the bitmap is a sequence of bits, not bytes, and inodes are kept in one table, not copied to and from inode blocks.
- Fs.Fs.Filewrite: n is not negative, the inode is a file, copying from user memory does not fail, and its transactions follow one another; Durability.Runs has the turns of several writers in any order.
- Fs.Fs.constructor: neither the superblock's contents nor the files and directories that mkfs goes on to write; the root directory is in Sysfile.Inodes.constructor.
- Vm.Vm.Allocproc: the memory only; the slot, pid and context are not modelled.
- Vm.Vm.Freeproc: the memory only; clearing the slot's other fields is not modelled.
- Sysfile: directory entries are records rather than sixteen bytes of a file, link counts do not overflow a short, and path lookup (namex, skipelem) is not modelled.
- Sysfile.Inodes.Create: not for a name that leads to a freed inode, where the source panics in ilock.
- Vm: the kernel page table, copyin and copyout, and address checks against MAXVA by callers are not modelled; user permissions are those the callers pass.
- Processes: pid allocation, file and memory work of fork and exit, and the failure exits of fork are not modelled; sleeping on other channels is only the sleep itself.
- Pipe: copying one byte at a time is the faultAt parameter; pipealloc's failure exits are not modelled.
- Umalloc.Heap.Malloc: addresses count headers, sbrk returns increasing addresses above the static head, and requests do not overflow sbrk's int argument.
- VirtioDisk: which bytes the device transfers, and the two wakeups that free_desc and the handler send, are not modelled; the device reports success and uses each available head once.
- Shell: execcmd's node, whose argument array parseexec fills while redirections already point to it, is a pair of lists that become a tree at the end.
- Not modelled at all: start-up, traps, devices other than the disk's queue, exec, the console, formatted printing, runcmd, and the remaining user programs; they are sequencing of the above or hardware access.
- Liveness and scheduler fairness: only safety is proved, besides the termination of every loop and recursion modelled.
