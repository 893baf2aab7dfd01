# A verified model of xv6 for RISC-V

This project models the parts of xv6 that are hardest to get right, and proves what they promise. It follows the system
bottom up.

- **Log and cache** (`Blocks`, `BufCache`, `Bio`, `LogFormat`, `Log`, `LogMachine`, `LogSafety`, `LogFull`, `LogRefine`,
  `LogRuns`). The buffer cache and the write-ahead log, once as classes with their in-place LRU ring and their trace of block
  writes, and once as a step machine in which any number of processes interleave and the machine may crash between any two writes.
  `LogRefine` ties the two together; `LogRuns` builds runs.
- **Files** (`FsLayout`, `FsSpec`, `FsGrow`, `FsWrite`, `FsBudget`, `FsTaken`, `FsTrunc`, `FsInode`, `Fs`, `FsOps`, `FsFill`,
  `FsTight`, `FsOver`, `FsCrash`, `Mkfs`). Allocation, block mapping, reading, writing and truncation over real inode and bitmap
  blocks, from the image that mkfs builds; what each operation passes to the log; and the file system that a crash leaves behind.
- **Names** (`NameSpec`, `NameSteps`, `NameExact`, `Names`, `NameFull`). Directories and link counts under interleaved link, unlink,
  create and iput.
- **Memory** (`PageSpec`, `PageSteps`, `PageRanges`, `PageViews`, `UserImage`, `Pager`, `ProcSpec`, `Procs`, `ProcTree`). Sv39 page
  tables, physical pages, fork, lazy and eager growth, and the copies between kernel and user.
- **Sleeping** (`SleepMachine`, `SleepSafety`). sleep, wakeup, kexit, kwait and sleep locks as interleaved steps.
- **Pipe** (`PipeSpec`, `Pipe`), **allocator** (`AllocSpec`, `Umalloc`), **shell** (`ShGrammar`, `ShPrint`, `ShLex`, `Shell`) and
  **grep** (`Regexp`, `Grep`).

Code that works in place is modelled by classes and methods with loops, proved against functions and predicates over values; the
results about those are the lemmas. `dafny verify dfyconfig.toml` checks the whole project.

What comes from outside is a parameter: the answers of sbrk and read, the moments at which a process is killed, the order of steps,
and whether a disk write finds room.

## Findings

Each is a property that the code does not have, with a lemma or a run that shows a failing case, and lemmas that say exactly
when it holds.

| property | fails when | shown by | exactly when |
|---|---|---|---|
| commit can always read its log blocks | thirty blocks are logged, since NBUF equals LOGBLOCKS | `Log.FullLogPanics` | `Log.CommitNeedsFreeBuffer` |
| log_write absorbs a block that is already logged | the header is full: the test for that comes first | `LogFull.AbsorbedWritePanics` | `LogSafety.LogFits`, `Log.Log.LogWrite` |
| an operation logs at most MAXOPBLOCKS blocks | iput frees a file whose blocks lie under ten or more bitmap blocks | `FsOver.FreeOverruns` | `FsOps.FreeInode`, `FsOps.UnlinkCount` |
| mkfs builds a consistent file system | the root directory's entries exactly fill its blocks | `Mkfs.FullRootBreaks` | `Mkfs.FinishIff` |
| nlink covers the entries that name an inode | the 16-bit count wraps around | `NameFull.FullLinks` | `NameSteps.LinkStartKeeps`, `NameSteps.CreateKeeps` |
| nlink equals the entries that name an inode | a directory unlinked while in use is freed with an entry in it | `NameExact.LeakTreeLeaks`, `Names.LoseLink` | `NameExact.FreedExactIff`, `NameExact.RunExact` |
| system calls do not tell lazy from eager memory | copyinstr, which does not fault pages in, meets an absent page | `UserImage.StringsDiffer` | `UserImage.StringsAgreeIff` |
| malloc's memory is backed by what sbrk granted | the size does not fit sbrk's int | `Umalloc.RequestTruncated` | `Umalloc.RequestIff` |
| a pipe's reader does not sleep beside unread bytes | a writer is killed after its first byte: it returns without a wakeup | `Pipe.LeftAsleep` | `Pipe.Pipe.WriteTurn`, `Pipe.Pipe.Run` |
| grep handles every line | a line has more than 1022 bytes or a NUL, or the last line has no newline: grep stops there without a word | `Grep.WritesNoMore` | `Grep.WritesLines`, `Grep.WritesNoMore` |

## Model

| member | source | states |
|---|---|---|
| `Bio.BCache.constructor` | kernel/bio.c:37-53 | the LRU ring threads every buffer exactly once; no buffer is referenced |
| `Bio.BCache.Bget` | kernel/bio.c:59-89 | finds the one buffer of the block, else recycles the least recently used unreferenced one; fails exactly when there is none, and then changes nothing |
| `Bio.BCache.Bread` | kernel/bio.c:93-103 | as bget, and the buffer then holds the block's latest contents: its own if valid, the disk's if not |
| `Bio.BCache.Bwrite` | kernel/bio.c:107-112 | exactly one disk block changes, and the trace of disks grows by one |
| `Bio.BCache.Brelse` | kernel/bio.c:117-137 | the six pointer assignments move the buffer to the front of the ring, and only when its last reference goes; every other link survives |
| `Bio.BCache.Bpin` | kernel/bio.c:140-144 | one more reference, ring and contents untouched |
| `Bio.BCache.Bunpin` | kernel/bio.c:147-151 | one reference fewer, ring and contents untouched |
| `Bio.Spliced` | kernel/bio.c:128-133 | for every ring and every position, brelse's assignments give the ring of the list with that element moved to the front |
| `BufCache.GetOk` | kernel/bio.c:59-89 | a block never has two buffers, and bget recycles only a buffer that nobody references |
| `LogFormat.HeaderRoundTrip` | kernel/log.c:88-115 | the header that write_head stores is the header that read_head reads |
| `LogFormat.CommitAtomic` | kernel/log.c:195-204 | after any number of commit's block writes, the disk recovers to all old or all new home blocks: old up to the first write_head, new from it on |
| `LogFormat.CommitCrashRecover` | kernel/log.c:66-125 | a crash anywhere in commit followed by any number of crashes inside recovery: the recovery that completes gives all old or all new home blocks, and new exactly when write_head had reached the disk |
| `LogFormat.RecoveryRestarts` | kernel/log.c:118-124 | a crash after any write of recovery loses nothing |
| `Log.Log.WriteLog` | kernel/log.c:180-192 | the disks of the copy loop, one by one; the slots then hold the latest contents of the logged blocks |
| `Log.Log.WriteHead` | kernel/log.c:104-115 | one block write, after which the disk's header is the one in memory |
| `Log.Log.ReadHead` | kernel/log.c:88-98 | the in-memory header is the one on disk |
| `Log.Log.InstallTrans` | kernel/log.c:67-84 | every logged block goes home and its buffer is unpinned; the disks passed through are those of Install, one by one |
| `Log.Log.RecoverFromLog` | kernel/log.c:118-124 | the disk is recovered, and every disk that it wrote on the way recovers to the same home blocks |
| `Log.Log.Commit` | kernel/log.c:195-204 | all logged blocks are home and the log is empty; every disk it wrote on the way recovers to the old home blocks before write_head and to the new ones after it |
| `Log.Log.LogWrite` | kernel/log.c:216-236 | the header absorbs a block it has and pins a block it gains; refuses exactly when the header is full or no operation runs |
| `Log.Log.BeginOp` | kernel/log.c:128-143 | admits exactly when no commit runs and the log could hold MAXOPBLOCKS more blocks for every running operation and this one |
| `Log.Log.EndOp` | kernel/log.c:148-176 | the last operation of a group commits it: afterwards the disk's home blocks are the group's store |
| `Log.FreeIffRoom` | kernel/bio.c:59-89 | when nothing is locked, a buffer is free exactly when the log holds fewer blocks than there are buffers |
| `Log.CommitNeedsFreeBuffer` | kernel/log.c:180-192 | commit's first bread succeeds exactly when the log holds fewer blocks than there are buffers; with NBUF equal to LOGBLOCKS a full log makes bget panic |
| `Log.FullLogPanics` | kernel/bio.c:88-88 | a cache with thirty logged blocks in thirty buffers, in which bget finds no buffer for commit |
| `LogSafety.StepKeeps` | kernel/log.c:66-236 | every step of every process, of commit, of recovery, and a crash between any two, keeps the invariant of cache, pins, contents, durable store, history and budget |
| `LogSafety.CrashSafety` | kernel/log.c:66-236 | at every moment of every interleaving with crashes, recovery yields a prefix of the commit groups; the prefix holds every group whose commit returned and only operations that reached end_op |
| `LogSafety.CommitExcludesOps` | kernel/log.c:128-176 | in every run a commit never overlaps an operation, so end_op's panic cannot fire |
| `LogSafety.ReadsLatest` | kernel/bio.c:59-144 | in every run each buffer shows the latest write to its block, a block has one buffer, and a logged block keeps its buffer until it is installed: cache and log refine a plain block store |
| `LogSafety.GuardsHold` | kernel/bio.c:117-151 | in every run a held buffer is referenced and a header read at boot is well formed |
| `LogSafety.LogFits` | kernel/log.c:216-236 | in every run the log has room for all that running operations may still write; log_write panics exactly when the header holds LOGBLOCKS entries, and only when every running operation has used its whole budget |
| `LogFull.AbsorbedWritePanics` | kernel/log.c:216-222 | a state of the invariant with a full log in which log_write of a block that is already in it panics |
| `LogRefine.Begin` | kernel/log.c:128-143 | a call of the class is admitted exactly when the machine's step is enabled, and leaves the machine's next state |
| `LogRefine.Write` | kernel/log.c:216-236 | a call of log_write leaves the machine's next state, and fails exactly when the machine has it panic |
| `LogRefine.End` | kernel/log.c:148-176 | an end_op that is not the last leaves the machine's next state |
| `LogRefine.CommitStarts` | kernel/log.c:148-176 | the last end_op starts the machine's commit on the disk that the class's commit starts on |
| `LogRefine.CommitWriteStep` | kernel/log.c:180-204 | each block write of the machine's commit leaves the disk that the class's commit has after the same write |
| `LogRefine.OtherStep` | kernel/log.c:195-204 | no other step of any process disturbs the disk or the progress of a commit |
| `LogRuns.CarryOne` | kernel/log.c:128-204 | from any state between operations that a run reaches, one operation can write any group of at most MAXOPBLOCKS home blocks, and commit it: every step on the way, in cache and log, is enabled |
| `LogRuns.RunExists` | kernel/log.c:52-236 | any sequence of such groups is that of some run, from any disk with an empty log and with any cache of twelve buffers or more |
| `FsLayout.InodeRoundTrip` | kernel/fs.c:227-242 | an inode stored in its slot reads back as itself, and the other slots of the block are untouched |
| `FsLayout.BitStored` | kernel/fs.c:75-79 | storing one bit of the bitmap changes that bit and no other |
| `FsSpec.NoSharing` | kernel/fs.c:406-444 | in a consistent file system no block stands at two positions of one or two inodes |
| `FsSpec.MarkedIffUsed` | kernel/fs.c:67-106 | a data block is marked in the bitmap exactly when some inode uses it |
| `Fs.FileSystem.Balloc` | kernel/fs.c:67-89 | the lowest free block, marked, zeroed and logged; 0 exactly when every block is in use; nothing else changes |
| `Fs.FileSystem.Bfree` | kernel/fs.c:93-106 | clears one bit and logs its bitmap block |
| `Fs.FileSystem.Iupdate` | kernel/fs.c:227-242 | the table and the disk agree again; only the inode's block changes |
| `Fs.FileSystem.Bmap` | kernel/fs.c:406-444 | finds or allocates one file block, keeps every other position of every inode, logs exactly what it changed, takes the lowest free blocks, and fails only on a full disk |
| `Fs.FileSystem.Itrunc` | kernel/fs.c:449-476 | every block of the inode is free, no other file changed, bfree never met a free block, and what is logged is exactly the bitmap blocks of the blocks freed and the inode's block |
| `Fs.FileSystem.Readi` | kernel/fs.c:495-519 | the bytes of the file's contents that the range covers, for every offset and length including those that wrap; nothing changes |
| `Fs.FileSystem.Writei` | kernel/fs.c:529-562 | the contents become the old ones with the written bytes spliced in; which blocks it takes is settled before the call: exactly as many as it needs, the lowest free ones; short exactly when fewer are free; whole or nothing within one block; -1 exactly for an offset past the end or a file too long; every block it changes is logged, a chunk logs at most MAXOPBLOCKS blocks, and that many exactly when NeedsAll holds before the call |
| `Fs.FileSystem.Filewrite` | kernel/file.c:148-173 | over all chunks the file has the bytes spliced in, each transaction fits its reservation, and the result is -1 exactly when not all bytes were written |
| `FsBudget.LogCostExact` | kernel/fs.c:529-562 | how many distinct blocks a writei logs, exactly: inode, data blocks touched, bitmap blocks of what it allocated, and the indirect block if it changed |
| `FsBudget.ChunkFits` | kernel/file.c:149-172 | a chunk of filewrite logs at most MAXOPBLOCKS blocks, and at most seven when one bitmap block covers the disk |
| `FsTaken.TakenCount` | kernel/fs.c:406-444 | a write that goes through takes exactly one block for each file block that the file lacks, and the indirect block if it is needed and missing |
| `FsTaken.StoppedCount` | kernel/fs.c:529-562 | a write that stops for want of blocks has taken fewer than it needs |
| `FsTaken.ChunkTight` | kernel/file.c:149-172 | all ten are logged exactly when, before the call, the chunk enters four file blocks, needs four blocks, and the four lowest free blocks lie under four bitmap blocks |
| `FsTight.BudgetReached` | kernel/file.c:149-172 | a run of the file system, from the image that mkfs builds, whose last chunk logs exactly MAXOPBLOCKS blocks |
| `FsBudget.EntryFits` | kernel/fs.c:603-629 | writing a directory entry logs at most two, three or five blocks: for an old entry, for a new one in a direct block, and beyond; overwriting logs exactly the entry's block and the inode's |
| `FsOps.FindSlot` | kernel/fs.c:616-621 | the first free entry of the directory's bytes, or their end when none is free |
| `FsOps.Dirlink` | kernel/fs.c:603-629 | the entry is spliced in whole or the directory reads as before; either way at most five blocks are logged |
| `FsOps.Create` | kernel/sysfile.c:265-301 | for files and directories, in success and in failure, at most MAXOPBLOCKS blocks are logged; a success gives a fresh inode and its entry, a failure a free inode and a directory that reads as before |
| `FsOps.BackOut` | kernel/sysfile.c:295-301 | what a failed create frees was taken in the same operation, so undoing it logs no further block |
| `FsOps.Link` | kernel/sysfile.c:145-169 | at most six blocks are logged; the link count goes up exactly when the entry is made |
| `FsOps.ClearEntry` | kernel/sysfile.c:222-224 | overwriting an entry never fails, so unlink's panic after its writei is never reached |
| `FsOps.Unlink` | kernel/sysfile.c:222-233 | exactly which blocks are logged: the entry's, both inodes' and, if the file goes, the bitmap blocks of its blocks |
| `FsOps.UnlinkCount` | kernel/sysfile.c:222-233 | how many blocks that is, exactly |
| `FsOps.UnlinkFits` | kernel/sysfile.c:222-233 | it fits the reservation on every disk of at most seven bitmap blocks |
| `FsOps.FreeInode` | kernel/fs.c:338-363 | the iput that frees an inode fits the reservation exactly when the file's blocks lie under at most nine bitmap blocks |
| `FsOver.FreeOverruns` | kernel/fs.c:449-476 | a run of the file system, from the image that mkfs builds, whose last operation, the iput of a file of ten blocks, logs eleven |
| `Fs.FileSystem.Ialloc` | kernel/fs.c:200-220 | the lowest free inode, empty; every other file untouched |
| `Fs.FileSystem.Ifree` | kernel/fs.c:342-359 | the inode is free and exactly its blocks are released; what is logged is exactly the bitmap blocks of those and the inode's block |
| `Fs.FileSystem.Ireclaim` | kernel/fs.c:374-393 | afterwards no inode in use is without links, and only such inodes changed |
| `Fs.FileSystem.Run` | kernel/fs.c:67-562 | after any sequence of writes, truncations, allocations, frees and link changes no block is used twice, none is marked and unused, none is used and unmarked |
| `Fs.BootAndRun` | mkfs/mkfs.c:69-175 | mkfs goes through exactly when the files fit the disk and one bitmap block; from that image on any sequence of operations leaves no block used twice, lost or used while free, unless the root directory exactly filled its last block |
| `FsCrash.Transact` | kernel/log.c:206-236 | any operations between begin_op and end_op change no block that was not passed to log_write, and log nothing but inode, bitmap and data blocks |
| `FsCrash.GroupOf` | kernel/log.c:216-236 | so their effect is that of one write to each logged block |
| `FsCrash.CrashConsistent` | kernel/log.c:66-236 | at every moment of every interleaving with crashes, recovery leaves a disk that holds a consistent file system, if each commit group leads from one to the next |
| `FsCrash.Carried` | kernel/log.c:128-236 | groups within the limits of an operation are those of some run of the machine |
| `FsCrash.Serve` | kernel/fs.c:67-562 | any transactions of the inode layer are such groups: whenever a machine that carries them loses power, the recovered disk holds a consistent file system; and if each logs at most MAXOPBLOCKS blocks, some run of the machine carries them all |
| `Mkfs.BlankOk` | mkfs/mkfs.c:108-111 | the blank image, once its bitmap is written, is a consistent file system with no inodes |
| `Mkfs.Image.Ialloc` | mkfs/mkfs.c:223-234 | inodes are handed out in order; no other file changes |
| `Mkfs.Image.Iappend` | mkfs/mkfs.c:255-296 | the file's contents grow by exactly the bytes given, no other file changes, the image stays consistent; it gives up exactly on a file too long or a disk without the blocks needed, and takes exactly those |
| `Mkfs.Image.Balloc` | mkfs/mkfs.c:237-250 | the bitmap written at the end marks exactly the blocks handed out |
| `Mkfs.RoundingIff` | mkfs/mkfs.c:166-170 | rounding the root directory's size up leaves no hole exactly when its entries did not end on a block boundary |
| `Mkfs.FinishIff` | mkfs/mkfs.c:166-172 | the finished image is consistent exactly when the root directory did not end on a block boundary |
| `Mkfs.FullRootBreaks` | mkfs/mkfs.c:166-170 | on every disk with a data block there is an image with a root directory of 64 entries that the rounding makes inconsistent |
| `Mkfs.Image.Build` | mkfs/mkfs.c:69-175 | goes through exactly when the files, with the root directory's blocks and indirect blocks, fit the disk and one bitmap block; then every host file is there with its bytes and its entry, and the image is consistent exactly when the number of root entries is not a multiple of 64 |
| `Names.FileTree.Dirlookup` | kernel/fs.c:575-598 | the slot that holds the name, or -1 exactly when no live slot does |
| `Names.FileTree.Dirlink` | kernel/fs.c:603-629 | fails exactly for a name that is there or a full disk; else one entry more, in the first free slot |
| `Names.FileTree.IsDirEmpty` | kernel/sysfile.c:174-186 | true exactly when no live entry but "." and ".." is left |
| `Names.FileTree.Iput` | kernel/fs.c:338-363 | frees exactly on the last reference to an inode without links, and then no directory entry names it |
| `Names.FileTree.LinkBegin` | kernel/sysfile.c:138-147 | the link count goes up before the entry exists; the promise about counts survives exactly when the count does not wrap |
| `Names.FileTree.LinkEnd` | kernel/sysfile.c:149-169 | the entry is made exactly when the parent exists, the name is new and there is room, else the count comes back down; then the reference goes, and the inode with it if that was all |
| `Names.FileTree.UnlinkBegin` | kernel/sysfile.c:205-229 | clears the entry, or refuses exactly when no entry of that name may be cleared; the panic on a link count below one cannot happen |
| `Names.FileTree.UnlinkEnd` | kernel/sysfile.c:231-233 | the link goes, and the inode exactly with its last link and reference |
| `Names.FileTree.Create` | kernel/sysfile.c:246-302 | makes an inode with its entries exactly when the name is new and an inode and room are there, else opens the old one or leaves the tree as it was |
| `NameSteps.LinkStartKeeps` | kernel/sysfile.c:145-147 | raising the count keeps the promise exactly when it is not at the largest short |
| `NameSteps.LinkUndoKeeps` | kernel/sysfile.c:163-169 | the failure path of link keeps the promise |
| `NameSteps.LinkFinishKeeps` | kernel/sysfile.c:149-157 | making the entry after the count keeps the promise |
| `NameSteps.UnlinkEntryKeeps` | kernel/sysfile.c:222-229 | clearing the entry before the count keeps the promise, and the count is at least one |
| `NameSteps.UnlinkEndKeeps` | kernel/sysfile.c:231-233 | lowering the count after the entry keeps the promise |
| `NameSteps.CreateKeeps` | kernel/sysfile.c:265-291 | creating an inode keeps the promise exactly unless a directory is created under a parent whose count is at the largest short |
| `NameSteps.FreedKeeps` | kernel/fs.c:342-359 | freeing an inode without links keeps the promise, and nothing but a stale ".." named it |
| `NameSteps.FreedLeaks` | kernel/fs.c:342-359 | freeing an unlinked directory that still holds an entry leaves the named file with a link too many |
| `NameFull.FullLinks` | kernel/sysfile.c:123-170 | a run of links, from the empty tree, after which every count is exact, each directory is within the size of a file, and one more link breaks the promise |
| `NameExact.LinkStartExact` | kernel/sysfile.c:145-147 | raising a count keeps it equal to the entries and what is under way exactly unless it wraps |
| `NameExact.LinkUndoExact` | kernel/sysfile.c:163-169 | link's failure path keeps every count as exact as it was |
| `NameExact.LinkFinishExact` | kernel/sysfile.c:149-157 | so does making the entry |
| `NameExact.UnlinkEntryExact` | kernel/sysfile.c:222-229 | so does clearing the entry |
| `NameExact.UnlinkEndExact` | kernel/sysfile.c:231-233 | so does lowering the count |
| `NameExact.CreateExact` | kernel/sysfile.c:265-291 | so does create, exactly unless the parent's count wraps |
| `NameExact.FreedExactIff` | kernel/fs.c:342-359 | freeing an inode keeps equality for another exactly when it held no entry that counts for that one |
| `NameExact.LeakTreeLeaks` | kernel/fs.c:342-359 | a tree of exact counts in which one iput loses equality |
| `NameExact.StepExact` | kernel/sysfile.c:123-302 | over any step a count stays exact, or inexact, except that it is lost exactly where it wraps or a freed directory still held a link |
| `NameExact.RunExact` | kernel/sysfile.c:123-302 | at any moment of any run a count is exact exactly if it was at the start and no step so far wrapped it or freed a directory that still held a link to it |
| `Names.LoseLink` | kernel/sysfile.c:123-302 | a run of the class, from the empty tree, after which a count is larger than its entries |
| `Names.FindLinked` | kernel/fs.c:603-629 | adding an entry makes its name resolve to its inode and changes no other name |
| `Names.FindUnlinked` | kernel/sysfile.c:222-224 | clearing an entry makes its name resolve to nothing and changes no other name |
| `Names.FileTree.Take` | kernel/sysfile.c:123-302 | each call takes the step of the model; the promise about counts survives exactly when no count wraps, which the step and the state before it decide |
| `Names.FileTree.Run` | kernel/sysfile.c:123-302 | any interleaving of the parts of link, unlink, create, iget and iput is a run of the steps and keeps every count at least the entries and everything under way, up to the first step that wraps a count; that step is the last one and it does wrap a count |
| `PageSpec.PxInjective` | kernel/vm.c:100-118 | addresses below MAXVA with the same three indices are in the same page |
| `PageSpec.SlotsDistinct` | kernel/vm.c:100-118 | distinct pages, of one table or of two, never share a leaf slot |
| `PageSpec.PagesDistinct` | kernel/vm.c:149-177 | no user page is mapped at two places, of one table or of two |
| `Pager.Memory.constructor` | kernel/kalloc.c:27-40 | every page of the range is free, once |
| `Pager.Memory.Kalloc` | kernel/kalloc.c:69-82 | the page on top of the list, junk in it; 0 exactly when there is none |
| `Pager.Memory.Kfree` | kernel/kalloc.c:47-63 | the page is free again; nobody's mapping changes |
| `Pager.Memory.Walk` | kernel/vm.c:101-118 | the slot of the address in the tree's flat map; new tables change no mapping of any process; with alloc it fails exactly when fewer pages are free than tables are missing, and takes exactly those |
| `Pager.Memory.Mappages` | kernel/vm.c:149-177 | the flat map gains exactly the pages asked for, or a prefix of them when memory ran out, and no other table's map changes; for one page, the cost and the failure are exact |
| `Pager.Memory.Uvmunmap` | kernel/vm.c:196-215 | exactly the range is unmapped and, if asked, freed; absent pages are skipped |
| `Pager.Memory.Uvmcreate` | kernel/vm.c:182-190 | an empty table, or 0 exactly when no page is free |
| `Pager.Memory.Uvmalloc` | kernel/vm.c:220-243 | zeroed pages over exactly the new range, or none of them; it cannot fail with three pages free for each new page, and takes no more |
| `Pager.Memory.Uvmdealloc` | kernel/vm.c:250-261 | exactly the pages between the two rounded sizes go |
| `Pager.Memory.Freewalk` | kernel/vm.c:266-281 | every table of the tree is free again and nothing else changed |
| `Pager.Memory.Uvmfree` | kernel/vm.c:286-291 | every page and every table of the tree is free again and nothing else changed |
| `Pager.Memory.Uvmcopy` | kernel/vm.c:300-327 | the child's table shows what the parent's shows, in pages of its own, or nothing is left; it cannot fail with three pages free for each page of the parent, and takes no more |
| `Pager.Memory.Vmfault` | kernel/vm.c:456-476 | a zeroed page exactly for an address below the size that has none, when the page and its missing tables are free |
| `Pager.Memory.Ismapped` | kernel/vm.c:479-489 | whether the flat map has a page there |
| `Pager.Memory.Walkaddr` | kernel/vm.c:124-141 | the page that the user may read at the address, or 0 |
| `Pager.Memory.Copyin` | kernel/vm.c:384-406 | what it copies depends on the user's image alone, not on which pages are present, and the image stays; short of memory only with fewer than three pages free for each page it touches |
| `Pager.Memory.Copyout` | kernel/vm.c:346-378 | the new image is the old one with the bytes stored, up to the first page the user may not write, whichever pages are present; short of memory only with fewer than three pages free for each page it touches |
| `Pager.Memory.Copyinstr` | kernel/vm.c:413-449 | reads the present pages only, and allocates nothing |
| `UserImage.StringsAgreeIff` | kernel/vm.c:413-449 | copyinstr gives what the image gives exactly when its scan meets no page that is still absent |
| `UserImage.StringsDiffer` | kernel/vm.c:413-449 | a string in an untouched lazy page, which the image reads and copyinstr does not |
| `UserImage.LazyGrowth` | kernel/sysproc.c:54-63 | growing the size alone shows the user zeroed pages |
| `UserImage.EagerGrowth` | kernel/proc.c:243-249 | growing with uvmalloc shows the user the same image as growing lazily |
| `UserImage.Shrinking` | kernel/proc.c:250-253 | shrinking shows the same image however the pages had come |
| `ProcSpec.Accounted` | kernel/kalloc.c:47-82 | every page is free or held by some process |
| `ProcSpec.NotShared` | kernel/kalloc.c:47-82 | a page held by a process is not free and no other process holds it |
| `Procs.Kernel.ProcPagetable` | kernel/proc.c:177-206 | trampoline and trapframe mapped exactly when three pages are free, else no trace left; the second mapping cannot fail |
| `Procs.Kernel.ProcFreepagetable` | kernel/proc.c:211-216 | every page and table of the process is free again, the trampoline and trapframe pages are not |
| `Procs.Kernel.Allocproc` | kernel/proc.c:110-150 | a trapframe and a page table exactly when four pages are free, else no trace left |
| `Procs.Kernel.Freeproc` | kernel/proc.c:156-172 | the process's pages are free again, and the slot is unused |
| `Procs.Kernel.Growproc` | kernel/proc.c:237-255 | fails exactly without room below the trapframe or without memory, and then the user sees no change; it cannot run short with three pages free for each new page |
| `Procs.Kernel.Kfork` | kernel/proc.c:260-306 | the child's image is the parent's, and no other process sees a change; it fails only without a free slot or with fewer than four pages and three for each page of the parent free, and then gives back exactly what it took |
| `Procs.Kernel.SysSbrk` | kernel/sysproc.c:40-65 | what it returns and what the user then sees do not depend on whether it is lazy; short of memory it returns -1 and the user sees no change, and that needs an eager request and fewer than three pages free for each new page |
| `Procs.Kernel.Run` | kernel/sysproc.c:40-65 | any sequence of growing, shrinking and access gives what the image alone gives, whichever requests were lazy, whenever three pages are free for each page it may need; running short shows as a failed call |
| `Procs.LazinessUnseen` | kernel/sysproc.c:40-65 | two runs that differ only in which requests are lazy have the same outcomes |
| `Procs.RunBoth` | kernel/sysproc.c:40-65 | two kernels whose processes look alike give the same outcomes to the same requests, however they differ in laziness, given that much memory |
| `Procs.DidUnseen` | kernel/vm.c:149-327 | what one process does to its memory no other process sees |
| `ProcTree.TreeLaziness` | kernel/sysproc.c:40-65 | for a process and all that it forks, the outcomes on the images do not depend on which requests are lazy |
| `ProcTree.RunTree` | kernel/proc.c:260-306 | any interleaved run of a process and all that it forks gives what the images give, each child starting from its parent's, whenever memory and slots suffice for what it may need |
| `ProcTree.RunTreeBoth` | kernel/proc.c:260-306 | two kernels whose processes look alike give the same outcomes to such runs, however they differ in laziness |
| `Procs.Kernel.RunAll` | kernel/proc.c:110-306 | after any sequence of creation, fork, growth, access and teardown over all processes every page is free or held by a process |
| `SleepSafety.StepKeeps` | kernel/proc.c:543-587 | every step of sleep, wakeup, kexit, kwait, kfork, kkill, acquiresleep, releasesleep and the scheduler, by any process, keeps the invariant |
| `SleepSafety.NoLostExit` | kernel/proc.c:311-415 | in every interleaving, while wait_lock is free no process sleeps in kwait beside a zombie child, its own or adopted |
| `SleepSafety.NoLostRelease` | kernel/sleeplock.c:22-41 | in every interleaving, while a sleep lock's spin lock is free nobody sleeps on it unless it is locked |
| `SleepSafety.OneHolder` | kernel/sleeplock.c:22-52 | in every interleaving a sleep lock has at most one holder, the one it records |
| `SleepSafety.OneInside` | kernel/sleeplock.c:22-41 | in every interleaving at most one process is inside wait_lock, or inside a sleep lock's spin lock |
| `Umalloc.RequestIff` | user/umalloc.c:46-61 | sbrk is asked for the size that morecore goes on to use exactly for requests up to 2147483616 bytes |
| `Umalloc.RequestTruncated` | user/umalloc.c:46-61 | the largest request asks sbrk for one header |
| `Umalloc.Heap.Free` | user/umalloc.c:24-44 | the block joins the address-ordered list at its place, merged with every neighbour it touches; the search ends; no other block moves |
| `Umalloc.Heap.Morecore` | user/umalloc.c:46-61 | null exactly when sbrk failed or its argument was cut; else the new memory is on the list, and some block is large enough |
| `Umalloc.Heap.Malloc` | user/umalloc.c:63-90 | a block of the size asked that overlaps no other, the first that fits from freep on; sbrk is asked at most once and only when none fits; null exactly when sbrk then fails |
| `Umalloc.Heap.NeverOverlap` | user/umalloc.c:63-90 | no byte is in two blocks in use, or in one in use and one free |
| `Umalloc.Heap.AllFreed` | user/umalloc.c:24-44 | when every block is freed, memory granted in one run is one free block again |
| `AllocSpec.InsertSound` | user/umalloc.c:33-42 | merging keeps the list ordered and gapped, keeps it apart from blocks in use, and loses no unit |
| `AllocSpec.TakeSound` | user/umalloc.c:75-85 | taking a block or its tail does the same |
| `Shell.Parser.Peek` | user/sh.c:317-326 | skips blanks only, and tells exactly whether the next token is one of those asked for |
| `Shell.Parser.GetToken` | user/sh.c:272-314 | takes exactly the next token of the line, and delimits a word exactly |
| `Shell.Parser.ParseRedirs` | user/sh.c:381-403 | the grammar's redirections, or its panic |
| `Shell.Parser.ParseExec` | user/sh.c:422-452 | the grammar's simple command, or its panic, including too many arguments |
| `Shell.Parser.ParseBlock` | user/sh.c:406-419 | the grammar's block, or its panic |
| `Shell.Parser.ParsePipe` | user/sh.c:368-378 | the grammar's pipeline, or its panic |
| `Shell.Parser.ParseLine` | user/sh.c:351-365 | the grammar's line, or its panic; the mutual recursion ends |
| `Shell.NulTerminate` | user/sh.c:456-499 | NULs at the ends of the command's strings, and no other change |
| `Shell.CutView` | user/sh.c:456-499 | with every string ended and none cut short, C reads from the buffer the tree that was parsed |
| `Shell.ParseCommand` | user/sh.c:334-348 | for every line, the tree that C reads from the buffer is the grammar's tree for the line's tokens, or the parser panics as the grammar says |
| `ShPrint.PrintParse` | user/sh.c:350-452 | parsing the printed tokens of any tree gives the tree back |
| `ShPrint.ParsePrintParse` | user/sh.c:350-452 | whatever the parser accepts is a tree of the language, and it accepts its printed form as the same tree |
| `ShLex.LexSpell` | user/sh.c:272-314 | tokens written with any blanks between them, and some where two would run together, are read back |
| `ShLex.RoundTrip` | user/sh.c:334-452 | any tree, written with any such blanks, is parsed back to itself |
| `ShLex.PrintTextParses` | user/sh.c:334-452 | any tree, written with single blanks, is parsed back to itself |
| `PipeSpec.RingSlice` | kernel/pipe.c:88-123 | the difference of the 32-bit counters is the number of unread bytes, and each lies where the wrapped counter says, also after the counters wrap |
| `PipeSpec.RingPut` | kernel/pipe.c:95-95 | a write disturbs no unread byte |
| `PipeSpec.EveryByte` | kernel/pipe.c:76-134 | each byte of the stream was written by one write call and, once taken, by one read call |
| `Pipe.Pipe.WriteTurn` | kernel/pipe.c:77-103 | from a sleep to the next: exactly which bytes go in and how it ends; no reader is left asleep beside unread bytes, except exactly when the writer is killed between two bytes while a reader sleeps |
| `Pipe.Pipe.ReadTurn` | kernel/pipe.c:106-134 | from a sleep to the next: exactly which bytes come out and how it ends; the writers are awake whenever there is room |
| `Pipe.WriteEndsOnce` | kernel/pipe.c:77-103 | a write's turn can end in one way only |
| `Pipe.ReadEndsOnce` | kernel/pipe.c:106-134 | a read's turn can end in one way only |
| `Pipe.MidwayIff` | kernel/pipe.c:83-87 | it is known before the turn whether the write fails after its first byte |
| `Pipe.Pipe.CloseEnd` | kernel/pipe.c:59-74 | wakes the other side; the page is freed exactly when both ends are closed, and then no call is in progress |
| `Pipe.Pipe.Run` | kernel/pipe.c:59-134 | over any interleaving of calls, kills and closes the stream stays in order, a writer and a reader never sleep at once, and a reader is left asleep beside unread bytes by exactly the events at which a writer is killed midway |
| `Pipe.Pipe.Stream` | kernel/pipe.c:76-134 | for any calls: the bytes taken are the first of the bytes written, each write call's bytes are in the stream in order, each read call holds its own share in order, and the rest is in the ring |
| `Pipe.Pipe.PrefixRead` | kernel/pipe.c:76-134 | between one writer and one reader the bytes read are a prefix of the bytes written and the ring holds the rest |
| `Pipe.LeftAsleep` | kernel/pipe.c:84-87 | a run that leaves a reader asleep beside a byte with both ends open |
| `Regexp.MatchHere` | user/grep.c:85-96 | true exactly when the items of the pattern, in order, cover some stretch of the text from here, to its end before '$' |
| `Regexp.MatchStar` | user/grep.c:99-106 | true exactly when a run of the character, of some length, is followed by the rest of the pattern |
| `Regexp.Match` | user/grep.c:73-82 | true exactly when some stretch of the text, from its start after '^', can be cut into parts that fit the items of the pattern one by one |
| `Grep.Grep.StrChr` | user/grep.c:22-22 | finds exactly the newline that ends the line, unless a NUL or the end of the buffer comes first |
| `Grep.Grep.Run` | user/grep.c:12-35 | however the reads split the input, grep writes the one output that Writes allows |
| `Grep.WritesOnce` | user/grep.c:12-35 | there is exactly one such output |
| `Grep.WritesLines` | user/grep.c:12-35 | over lines of at most 1022 bytes without NUL, it is exactly the matching lines, each with its newline, in order |
| `Grep.WritesNoMore` | user/grep.c:18-34 | from a longer line on, from a line with a NUL on, and from an unfinished last line on, nothing is written |

## Left out

- Devices, interrupts, traps, the scheduler's choice, the boards' start-up code and the network: not modelled.
- exec, open, chdir, path walking over several directories, and the device switch: not modelled.
- The memory model of spin locks: a step is what happens between two lock operations, and locks are taken as atomic.
- Sleep channels other than kwait's and the sleep locks': only those two and the pipe's are modelled; a process exits holding no sleep lock.
- The kernel's own pages: the kernel page table, stacks and pipe pages are outside the pages that are accounted for.
- Page-table entries are records of a page number and five flags, not 64-bit words; the accessed and dirty bits are not modelled.
- The inode table has one slot for each inode number; recycling of its NINODE slots is not modelled.
- The superblock's bytes, and the zero bytes that pad the root directory, are not stated of mkfs's image.
- Names.FileTree.Iget: only for inodes in use; a stale ".." that names a freed inode is not followed.
- Fs.FileSystem.Writei: either_copyin always succeeds here; a failing user address in the middle of a write is not modelled.
- Fs.FileSystem.Filewrite: other processes do not run between its chunks.
- Fs.FileSystem.Bfree: freeing a free block is the source's panic, which Itrunc is proved never to meet.
- Mkfs.Image.Build: takes no more files than there are inodes; on a disk too small the source writes past its end, and the model stops.
- FsOps.Create: takes a name that is not there yet, and a parent that is still linked, so that its iput frees nothing.
- FsOps.Unlink: the parent is still linked, so that its iput frees nothing.
- NameSteps.CreateKeeps: its failing case needs a parent with 32766 subdirectories; a directory of this file system holds 17152 entries.
- FsCrash.Serve: that interleaved operations of one group have the effect of some serial order is taken, not proved.
- Pager.Memory.Vmfault: for the table of the process that faults, as its callers use it.
- Procs.Kernel.ProcPagetable: the way out after a failed trapframe mapping is not written out, as that mapping is proved never to fail.
- Procs.Kernel.Run: with less memory than stated, a lazy request can succeed where an eager one fails.
- Umalloc.Heap.Malloc: what happens after an sbrk whose argument was cut is not modelled; the call ends with the outcome Truncated.
- Umalloc.Heap.Free: a pointer that malloc did not return, or a null pointer, has no meaning in the source either.
- Shell.Parser.ParseExec: commands are values; the argument that the source stores through a pointer inside the redirections is added there by AddSpan.
- Pipe.Pipe.CloseEnd: called when no call on that end is in progress, as the reference count of the open file ensures.
- runcmd, and allocation failures in the shell's constructors: not modelled.
