# A verified model of xv6

This project models the parts of xv6 for RISC-V that are hard to get right, and proves what they are
for. It covers the version with symbolic links, `O_APPEND`, `>>` in the shell and `grep -i`. There is
one module per file. Code that changes things in place is modelled by classes and methods with loops.
Code that runs concurrently is modelled as a step system, and its theorems hold in every state of
every run, for any number of processes and CPUs.

The main results:

- **A crash is all or nothing** (`LogHeader`, `LogCrash`, `LogDisk`, `Log`, `Bio`, `Lru`). The device
  may stop after any write of `commit()` and leave the next block torn, any number of recoveries may
  crash in turn, and then one completes. Every block outside the log is then as it was on the disk, or
  every one is as the file system sees it, and the header write alone decides which
  (`Log.CommitIsAtomic`). The buffer cache below it returns the latest content of every block, never
  recycles a block that is logged and not installed, and recycles the buffer released longest ago.
- **A crash in the middle of a write** (`FsImage`, `FsDisk`, `FsCrash`). Superblock, inodes and bitmap
  are encoded in blocks, and a disk is at most one file system (`FsDisk.OneMeaning`). Operations of any
  processes share transactions. After a crash in `filewrite()` the file has exactly the chunks of whole
  transactions (`FsCrash.FilewriteSurvivesCrashes`). Only a copy from user memory that fails within a
  block can leave bytes behind them, which `writei()` neither counts nor logs. A crash in `itrunc()` or
  in an `iput()` that frees an inode leaves all of its blocks or none.
- **The log never overflows, but it can be too full** (`GroupCommit`, `Log`, `FileSys`, `FileOps`). In
  every interleaving, `log_write()` does not panic while its caller has space left, no operation is
  split between two commits, and `filewrite()` never outgrows its share, also with other writers
  between its operations. The methods of `Log` are steps of that system. The log may hold LOGBLOCKS =
  NBUF blocks, though. Each pins a buffer, and `commit()` then finds none and panics:
  `GroupCommit.FullLog` is a run that gets there, and `Log.CommitFindsBuffers` is the exact condition.
- **Files are byte sequences** (`Inodes`, `FileSys`, `FileOps`, `Truncate`, `Itable`). `writei()`
  splices what it writes into one file and nothing else; `readi()` returns it, across the direct and
  the indirect blocks. Every block in use belongs to one slot of one inode, so "freeing free block" is
  unreachable. An inode is freed exactly with its last reference and its last link.
- **Names, links and the directory tree** (`Names`, `Links`, `Namespace`, `Dirents`, `DirTree`,
  `Paths`, `Symlinks`). Directories are bytes of files. Link counts are exact, and linked directories are a tree
  below the root, on success and on failure of `create()`, `sys_link()` and `sys_unlink()`, as long as
  entries are added to linked directories. The code does not check that. In an unlinked directory,
  counts go wrong for every file and link (`Namespace.CreateInUnlinked`), and for a new directory
  unless the ".." of its parent dangles (`Links.AddDirExact`). A dangling ".." makes `namex()` and
  `create()` panic, and nothing else does (`Paths.PanicsExactly`, `Namespace.OnlyDotDotIsVacant`). There
  is one way to read a path (`Paths.ElementsAreSpelled`), and every linked directory has one.
- **Address spaces** (`RiscV`, `PageTree`, `Vm`, `Uvm`, `UserMem`, `Fork`). The three-level tree is a
  finite map from pages to physical pages; growing and copying an address space either succeed or leave
  nothing behind, and so does the memory side of `kfork()` with every undo in it; no page is lost or
  freed twice; and lazy allocation cannot be seen by the process. Lazy `sbrk()` does not bound the size
  of a process, though: `Fork.Kfork`, `Fork.Freeproc` and `UserMem.Copyin` say exactly for which sizes
  the kernel panics.
- **Processes and locks** (`Spinlock`, `SleepLock`, `ExitWait`, `Lineage`). Mutual exclusion, no lost
  wakeup, interrupts off and restored, no living process without a living parent, no missed zombie, no
  process on two CPUs, with preemption wherever no lock is held. Over whole runs, the parent of a process
  is the one that forked it until `kexit()` gives it to init, and every process is reaped at most once,
  by one of the two.
- **The disk driver** (`Virtio`, `VirtioRing`). Driver and device share rings whose indices wrap at 16
  bits; every request reaches the device as it was made, with what the device may write, and when it
  returns the block has been transferred (`VirtioRing.RequestIsCarriedOut`).
- **User programs** (`Malloc`, `ShellGrammar`, `Shell`, `ShellRun`, `Grep`). The allocator's blocks
  partition the heap, and are memory that the process has if and only if no request from `sbrk()`
  exceeds an int; the shell's parser accepts exactly its grammar, and of several redirections the first
  counts; and `match()` of grep is right exactly where it returns. Its comment promises that `.*` works.
  It does not: `.*b` does not return on "ab" (`Grep.DotStarDoesNotReturn`). `Grep.MatchIsExact` says
  when it does.

A panic is a precondition where the caller must avoid it, a result where the code does not, and proved
unreachable where the code itself avoids it. Failures that come from outside (a full disk, user memory
that ends, `sbrk()`) are parameters or part of the state, and the contracts say when an operation fails
as well as what it then leaves.

## Model

| member | source | states |
|---|---|---|
| Bio.BCache.constructor | kernel/bio.c:36-53 | the empty cache: nothing cached, no references, and the content of every block is what is on the disk |
| Lru.Unlink | kernel/bio.c:126-133 | the two stores that take a node out leave a doubly linked ring of exactly the other nodes in their order |
| Lru.PushFront | kernel/bio.c:126-133 | the four stores that put a node behind the head leave a doubly linked ring with it in front of the others |
| Bio.BCache.Get | kernel/bio.c:58-89 | a cached block keeps its buffer; otherwise, of the buffers without references, the one that was released longest ago is taken, and no content is lost; references are counted exactly; "no buffers" is the precondition, which CanGet decides |
| Bio.BCache.CanGet | kernel/bio.c:58-89 | bget() finds a buffer exactly if the block is cached or some buffer has no references; otherwise it panics |
| Bio.BCache.Read | kernel/bio.c:92-103 | a locked buffer whose data is the latest content of the block, whether it is cached or on the disk |
| Bio.BCache.SetData | kernel/bio.c:92-112 | writing to a locked buffer changes the content of that block only |
| Bio.BCache.Write | kernel/bio.c:106-112 | the disk has the buffer's data, and the write is the next one that the device sees |
| Bio.BCache.Release | kernel/bio.c:114-137 | one reference less; a buffer without references is now the latest released and moves to that end of the list, the others keep their order, so that the list stays in the order of release; the content of no block changes |
| Bio.BCache.Pin | kernel/bio.c:139-144 | one more reference, so that the block cannot be recycled while the log wants it |
| Bio.BCache.Unpin | kernel/bio.c:146-151 | gives that reference back; only a buffer that is locked or agrees with the disk may lose it |
| Bio.CacheIsSound | kernel/bio.c:58-151 | what every operation keeps: at most one buffer for a block (device not 0), valid data is the latest content, a buffer without references is not logged and agrees with the disk |
| LogHeader.SetHead | kernel/log.c:100-115 | the header written into a block and read back is the list of block numbers that was written |
| LogCrash.RecoveryCompletes | kernel/log.c:117-124 | a completed recovery puts every home block at the value that the log promised and leaves the log empty |
| LogCrash.CrashedRecoveryKeepsMeaning | kernel/log.c:66-124 | a crash anywhere in recovery, with the next block torn, leaves a disk that means the same |
| LogCrash.CommitEndsAsRecovery | kernel/log.c:194-204 | from the header write on, commit() writes exactly what a recovery would write |
| LogCrash.CrashAtomicity | kernel/log.c:178-204 | for every crash point of a commit and any number of crashed recoveries, a completed recovery leaves all home blocks old or all new, and the header write is the switch |
| LogCrash.CommitCompletes | kernel/log.c:194-204 | a commit without a crash installs the whole transaction and nothing else |
| LogDisk.CommitRefines | kernel/log.c:178-204 | the block writes of commit() on a real disk are the writes of the crash model |
| LogDisk.RecoverRefines | kernel/log.c:66-124 | so are the block writes of recovery |
| LogDisk.CommitSurvivesCrashes | kernel/log.c:66-204 | crash atomicity on a disk of numbered blocks with the log's layout and an encoded header |
| Log.Log.WriteLog | kernel/log.c:178-192 | the log blocks have the contents of the blocks that the header names, written in order, and nothing else changes |
| Log.Log.WriteHead | kernel/log.c:100-115 | the header block has the list in memory; one write |
| Log.Log.InstallTrans | kernel/log.c:65-84 | the home blocks have the contents of the log blocks, written in order; unless recovering, every pin is gone |
| Log.Log.Commit | kernel/log.c:194-204 | succeeds exactly if the log has fewer than NBUF blocks; with NBUF blocks bget() panics before anything is written. Otherwise the device is told exactly the sequence of writes that the crash theorem is about, the file system's view does not change, and afterwards disk and view agree and the log is empty |
| Log.CommitFindsBuffers | kernel/log.c:178-192 | commit() finds a buffer for its first log block if and only if fewer than NBUF blocks are logged, because every logged block is pinned |
| Log.Log.RecoverFromLog | kernel/log.c:86-124 | performs exactly the recovery writes; cache and disk agree, and the log is empty |
| Log.CommitIsAtomic | kernel/log.c:178-204 | for the log and the cache as they are at a commit, of any size: after any crash and a completed recovery, every block outside the log is as it was on the disk, or every one is as the file system saw it |
| Log.Log.LogWrite | kernel/log.c:206-236 | is a log_write() step of GroupCommit; an operation with space left meets neither panic; the block is in the header once and pinned once, however often it is written; no content changes |
| Log.Log.TryBeginOp | kernel/log.c:126-143 | is a begin_op() step of the GroupCommit system from any state that has its invariant and agrees with the log, and agrees with the state after it: so what GroupCommit proves of its invariant holds of the class |
| Log.Log.EndOp | kernel/log.c:145-176 | is an end_op() step of GroupCommit; its panic is not reached; commits exactly if no other operation is open |
| Log.Log.FinishEndOp | kernel/log.c:167-175 | commit() and the end of end_op() are the finishing step of GroupCommit, with disk and view in agreement; a log of NBUF blocks is where it panics instead |
| GroupCommit.RunKeepsInv | kernel/log.c:126-236 | in every interleaving, what is in the header plus what open operations have left never exceeds the log |
| GroupCommit.ReservationSafety | kernel/log.c:126-236 | in every reachable state: committing implies nothing outstanding, header entries are distinct, log_write() does not panic while its caller has space left, and nobody sleeps in begin_op() who could go on |
| GroupCommit.GroupsAreWhole | kernel/log.c:145-204 | when a group commits, none of its operations is open, the header holds exactly the blocks they logged, and no operation ever logs in two groups |
| GroupCommit.FullLog | kernel/log.c:126-176 | a run of three operations, each within its share, after which exactly LOGBLOCKS = NBUF blocks are to be committed: the case in which commit() panics is reached |
| Inodes.AttachKeepsInv | kernel/fs.c:405-444 | giving a free block to an empty slot keeps every block with one owner and its bit set |
| Inodes.AttachUnseen | kernel/fs.c:405-444 | and changes no byte of any file |
| Inodes.SizeKeepsInv | kernel/fs.c:528-562 | a file may grow over blocks that it has |
| Inodes.SlotsAreFileBlocks | kernel/fs.c:395-444 | the block of a file that bmap() finds at a number is the one at that place of the list of the inode's direct addresses followed by the 256 addresses in the indirect block, four bytes each with the lowest first |
| FileSys.FileSystem.Balloc | kernel/fs.c:62-89 | the first free block, marked and zeroed; 0 exactly when none is free; at most two blocks logged |
| FileSys.FileSystem.Bmap | kernel/fs.c:395-444 | the block of a file, made if it is missing; 0 only when the disk is full; no content of any file changes; bounds on what is logged |
| FileSys.FileSystem.Writei | kernel/fs.c:521-562 | what was written is spliced into the file, the size is the larger of old and new end, no other byte of any file changes; -1 exactly for a bad range; short exactly with a reason: a full disk, or a source that ends; in the middle of a block that leaves exactly the bytes that were copied in the block, not counted and not logged; every other change is in a logged block, every block with bytes written is logged, and only blocks of this file, its inode and the bitmap are; a chunk of filewrite()'s size logs at most MAXOPBLOCKS blocks and never meets a full share before the inode |
| FileSys.ChunkBound | kernel/file.c:149-173 | the data, bitmap and indirect blocks of one chunk leave room for the inode, for any number of bitmap blocks |
| FileSys.IndirectCost | kernel/fs.c:422-441 | what the blocks behind the indirect block may add to the log, whether or not the indirect block is new |
| FileOps.Readi | kernel/fs.c:490-519 | exactly the bytes of the file that the range covers, -1 if the destination has no room; nothing changes, so bmap() does not allocate |
| FileOps.WriteThenRead | kernel/fs.c:490-562 | a read after a write returns the bytes written, across block and indirect boundaries |
| FileOps.Filewrite | kernel/file.c:132-179 | the file has a prefix of the source appended at the offset, all of it exactly on success; the offset moves by as much; a failure has a reason, and what a copy that fails within a block leaves is said exactly; it is a chain of operations, one for each whole chunk but the last, and every one stays within its share of the log, at its end and at every log_write() in it |
| FileOps.FilewriteShared | kernel/file.c:144-173 | with other processes changing the same file, its offset and the disk between any two operations: every operation is atomic and within its share, writes the next piece of the source at the offset that it finds, and the pieces follow each other and make up the result |
| FsImage.InodeRoundTrip | kernel/fs.c:222-242 | an inode written to its place in a block is read back, and the other inodes of the block are not touched |
| FsImage.BitsRoundTrip | kernel/fs.c:62-106 | so are the bits of a bitmap block |
| FsImage.DinodeLayout | kernel/fs.h:31-39 | the fields of an inode are at the byte offsets of struct dinode in its block, with the lowest byte first |
| FsImage.BitLayout | kernel/fs.c:62-106 | the first of the eight bits of a bitmap byte is the lowest |
| FsDisk.BitPlace | kernel/fs.h:47-51 | BBLOCK() and the place in the block are that of the bit with the block's number, counted from the start of the bitmap |
| FsDisk.InodePlace | kernel/fs.h:41-45 | so are IBLOCK() and the place of an inode, counted from the start of the inodes |
| FsDisk.OneMeaning | kernel/fs.h:14-51 | the blocks of a disk, superblock included, are at most one file system: layout, inodes, bitmap, data blocks and the owner of every block |
| FsDisk.OpRepresents | kernel/fs.c:521-562 | the blocks that an operation logs, installed on the disk, are the file system after the operation, for any operation that logs what it changes; blocks that it changed and did not log stay as they were |
| FsCrash.TransactionIsAtomic | kernel/log.c:66-204 | after a crash at any point of the commit of a transaction, any number of crashed recoveries and one that completes, the disk is the file system that was there or the one that the transaction made of it |
| FsCrash.GroupIsSound | kernel/log.c:145-204 | any operations of any processes that follow each other make one transaction that logs all that they change, also if buffers that were changed and not logged have been recycled in between |
| FsCrash.FilewriteSurvivesCrashes | kernel/file.c:144-173 | a crash in filewrite(), however its operations and any operations of other processes that leave the file alone were grouped into transactions: after recovery the file has exactly the chunks of whole transactions, in bytes and in size; only behind them may there be bytes of a copy that failed within a block |
| FsCrash.OwnHistory | kernel/file.c:144-173 | what Filewrite does is a history that this theorem is about |
| Truncate.TruncateKeepsInv | kernel/fs.c:446-476 | freeing all blocks of a file keeps block ownership, and no other file changes |
| Truncate.Itrunc | kernel/fs.c:446-476 | the file is empty and exactly its blocks are free; bfree()'s panic is not reached; every change is in a block that is logged, with the inode as it is in the end, and besides the inode's block only blocks of the bitmap are logged |
| Truncate.ReleaseKeepsInv | kernel/fs.c:330-363 | freeing an inode with its blocks keeps block ownership, and no other file changes |
| Truncate.Iput | kernel/fs.c:342-360 | what iput() does to the file system, given its reference count: the last reference to an inode without links frees inode and blocks, and logs all that changes, with the inode as it is in the end; any other changes nothing |
| Truncate.ReleaseIsSound | kernel/fs.c:342-360 | freeing an inode is an operation of the crash theorems: it logs every block that it changes, and only blocks of the file system |
| Truncate.TruncateIsSound | kernel/fs.c:446-476 | so is itrunc() |
| Truncate.FreesFit | kernel/fs.c:342-360 | either logs at most one block besides those of the bitmap, however large the file is |
| FsCrash.TruncateSurvivesCrashes | kernel/fs.c:446-476 | after a crash at any point of the commit of an itrunc(), any number of crashed recoveries and one that completes, the disk is the file system before it or the truncated one |
| FsCrash.ReleaseSurvivesCrashes | kernel/fs.c:330-363 | after such a crash of an iput() that frees an inode, the inode has all of its blocks, or inode and blocks are all free |
| Itable.Table.constructor | kernel/fs.c:174-191 | the empty inode table: nobody refers to an inode |
| Itable.Table.Iget | kernel/fs.c:244-279 | one more reference in the slot of the inode, one slot for each inode in use; panics exactly if the inode has no slot and none is free |
| Itable.Table.Idup | kernel/fs.c:281-290 | one more reference |
| Itable.Table.Ilock | kernel/fs.c:292-318 | the code tests the type only when it reads the inode; yet it panics exactly if the inode is not allocated, because what the table has read is |
| Itable.Table.Iput | kernel/fs.c:330-363 | the inode and its blocks are freed exactly if this was the last reference in the system, the inode has been read and it has no links; otherwise no file changes; what changes is logged; the counts of the table are the references that there are |
| Truncate.Ireclaim | kernel/fs.c:373-393 | afterwards no inode is in use without links; exactly the inodes that were have been freed, with exactly their blocks, one after the other in operations that log all that they change |
| Names.LookupIsMapping | kernel/fs.c:572-598 | searching the slots is looking a name up in a finite map |
| Names.PutInserts | kernel/fs.c:600-629 | filling a free slot inserts into that map |
| Names.ClearRemoves | kernel/sysfile.c:222-227 | writing zeroes into a slot removes from it |
| Dirents.EntryRoundTrip | kernel/fs.h:53-59 | an inode number and a name in the 16 bytes of an entry are read back, names of DIRSIZ characters without a terminating 0 included |
| Dirents.Dirlookup | kernel/fs.c:572-598 | the search over readi() of the bytes of a directory is a lookup in its entries; the panics are not reached; nothing changes |
| Dirents.Dirlink | kernel/fs.c:600-629 | over readi() and writei(): the entry is in the first free slot, or at the end; no other entry and no other file changes; what changes is logged; it fails exactly if the name is there, or every slot is taken and there is no block or room in the file for another, and then the directory is as before |
| Dirents.Erase | kernel/sysfile.c:222-227 | zeroes over an entry clear exactly that entry; the panic "unlink: writei" is not reached |
| DirTree.Dirlink | kernel/fs.c:600-629 | dirlink() on the bytes of the file system and on the tree of names, side by side: if the file system shows the tree before, it does after, and they agree on success and slot; without success for a new name there is no room |
| DirTree.Erase | kernel/sysfile.c:222-227 | so it is for clearing an entry |
| DirTree.TypesDiffer | kernel/stat.h:1-4 | the types of directories, files, devices and symbolic links on the disk are all different |
| Namespace.FileTree.Dirlookup | kernel/fs.c:572-598 | the slot and inode of the name, nothing exactly if the name is absent |
| Namespace.FileTree.Dirlink | kernel/fs.c:600-629 | a new entry in the first free slot or at the end; succeeds exactly if the name is new and there is room; otherwise nothing changes |
| Namespace.FileTree.IsDirEmpty | kernel/sysfile.c:172-186 | true exactly if nothing but the first two slots is in use |
| Namespace.FileTree.Ialloc | kernel/fs.c:195-220 | the first free inode; none exactly if all are in use |
| Namespace.FileTree.Create | kernel/sysfile.c:245-302 | one new inode, name and link (and ".." for a directory), or an existing file, or nothing changes, or ilock() panics; says exactly when; the counts stay exact if and only if the directory is linked or, for a new directory, its parent's ".." dangles; the tree stays one if and only if the directory is linked |
| Namespace.FileTree.Link | kernel/sysfile.c:122-170 | one more name and one more link, or nothing changes, on every failure path, or ilock() panics; says exactly when; counts as for create() |
| Namespace.FileTree.Unlink | kernel/sysfile.c:188-243 | the name goes and its inode has one link less, and is freed if that was the last and nobody uses it; refused exactly for ".", "..", absent names and directories that are not empty; the counts stay exact and the panic is not reached |
| Links.AddNodeExact | kernel/sysfile.c:245-302 | a new file keeps link counts exact if and only if its directory is linked, and the tree of directories under the same condition |
| Links.AddLinkExact | kernel/sysfile.c:122-170 | so does a new link to a file |
| Links.AddDirExact | kernel/sysfile.c:245-302 | a new directory, whose ".." is a link to its parent, keeps the counts exact if and only if the parent is linked, or has been unlinked and its own ".." names a free inode other than the new one; it keeps the tree if and only if the parent is linked |
| Links.HasLink | kernel/sysfile.c:188-243 | what an entry names has a link, so "unlink: nlink < 1" is not reached |
| Links.EmptyHasOne | kernel/sysfile.c:188-243 | an empty directory has exactly one link, so unlinking it frees it |
| Links.RemoveLinkKeepsInv | kernel/sysfile.c:188-243 | unlinking a file keeps the counts exact |
| Links.RemoveDirKeepsInv | kernel/sysfile.c:188-243 | so does unlinking an empty directory, whose parent loses a link and keeps one |
| Links.FreeKeepsInv | kernel/fs.c:330-363 | freeing an inode without links leaves no entry that names it |
| Namespace.CreateInUnlinked | kernel/sysfile.c:245-302 | a case in which a count goes wrong: a file created in a directory that has been unlinked |
| Namespace.MkdirInUnlinked | kernel/sysfile.c:245-302 | a directory created in an unlinked one: counts go wrong when ".." there names a live directory, and stay exact when it dangles, while the tree is broken in both |
| Namespace.OnlyDotDotIsVacant | kernel/sysfile.c:255-262 | create() finds an inode that is not allocated exactly for ".." in a directory whose parent is gone, and never in a linked directory |
| Namespace.DotDotIsVacant | kernel/sysfile.c:255-262 | a tree with exact counts in which create() of ".." panics |
| Paths.Skipelem | kernel/fs.c:631-668 | the first element, cut to DIRSIZ characters and without a slash, and a rest that has exactly the remaining elements |
| Paths.ElementsAreSpelled | kernel/fs.c:631-668 | the elements of a path are some names if and only if the path is these names, none empty or with a slash in it, with one or more slashes between them and any number before and after: there is one way to read a path |
| Paths.Namex | kernel/fs.c:670-707 | what following the elements one by one from the root or the current directory leads to; with nameiparent, the directory of the last element and its name; panics in ilock() exactly if an element before the end leads to an inode that is not allocated |
| Paths.LinkedNeverPanics | kernel/fs.c:670-707 | no path from a linked directory meets an inode that is not allocated |
| Paths.PanicsExactly | kernel/fs.c:670-707 | some path from a directory panics if and only if ".." leads out of it, over unlinked directories, to an inode that is not allocated |
| Paths.DotDotPanics | kernel/fs.c:670-707 | a tree with exact counts and a path that panics: "../x" in a directory that was unlinked before its parent |
| Paths.EveryDirectoryHasAPath | kernel/fs.c:670-707 | the tree is rooted: every linked directory has a path string, with as many elements as it is deep, that namex() follows to it from any current directory without a panic, if all names can be spelled, which create(), sys_link() and sys_unlink() keep |
| Symlinks.Follow | kernel/sysfile.c:331-365 | the outcome is the end of the one way that the links lead: the file, a failure (nothing there, an empty link, or more than ten links), the panic of ilock(), or an overrun of the path buffer; with O_NOFOLLOW the link itself |
| Symlinks.OneEnd | kernel/sysfile.c:331-365 | every path has exactly one such end, for any tree and any contents of links |
| Symlinks.OpenedIsChain | kernel/sysfile.c:331-365 | a file is opened exactly if a chain of at most ten links ends at it |
| Symlinks.ShortLinksFit | kernel/sysfile.c:348-357 | the path buffer is overrun exactly if a link on the way has MAXPATH characters or more |
| Symlinks.ChainIsLongest | kernel/sysfile.c:331-365 | a chain that ends is the only one and no way goes further, so the depth limit cuts off nothing else |
| Symlinks.NoCircle | kernel/sysfile.c:331-365 | no inode is on a chain twice, so links in a circle are refused |
| RiscV.PteRoundTrip | kernel/riscv.h:384-389 | address and flags survive the trip through a page table entry |
| RiscV.IndicesDeterminePage | kernel/riscv.h:391-400 | the three indices determine the page |
| RiscV.PageOfIndices | kernel/riscv.h:391-400 | and every three indices are those of one page |
| PageTree.AddTable | kernel/vm.c:97-115 | a zeroed page hung into an empty slot keeps the tree unshared, and maps nothing |
| PageTree.SetLeaf | kernel/vm.c:145-212 | writing a leaf entry inserts into the map, clearing one removes from it |
| PageTree.EntryRoundTrip | kernel/riscv.h:372-389 | an entry of the model is one 64-bit entry: it survives encoding, and the test of freewalk() for a table is right |
| PageTree.OtherBitsIgnored | kernel/riscv.h:372-389 | the accessed, dirty and other bits above PTE_U do not change what an entry means |
| Vm.PhysMem.Kalloc | kernel/kalloc.c:65-82 | a free page that is in no other use; none exactly if the list is empty |
| Vm.PhysMem.Kfree | kernel/kalloc.c:42-63 | the page is on the free list once, and in no other use |
| Vm.PhysMem.Walk | kernel/vm.c:85-115 | the slot of the page's leaf entry; with alloc it adds tables from free pages and fails only if those run out; the map does not change |
| Vm.PhysMem.Mappages | kernel/vm.c:140-174 | inserts the consecutive pages; on failure a prefix of them, and memory had run out |
| Vm.PhysMem.Uvmunmap | kernel/vm.c:189-212 | removes exactly the mapped pages of the range, and frees exactly the pages behind them |
| Vm.PhysMem.Uvmalloc | kernel/vm.c:214-240 | every new page is zeroed memory of its own with the permissions asked for; there is a 0 at every address from the old size rounded up to the new size rounded up, and what was at the others still is; or mapping and memory are as before and memory was short |
| Vm.PhysMem.Uvmdealloc | kernel/vm.c:242-258 | exactly the pages above the new size are unmapped and free; nothing is at the addresses from the new size rounded up to the old size rounded up, and what was at the others still is, unless it shared a page |
| Uvm.Uvmcopy | kernel/vm.c:290-324 | the child has pages of its own with equal contents and permissions, so that it reads at every address below the size what the parent does; or its mapping and all memory are as before and memory was short; the parent is untouched; if there is a page that it cannot map in the child, it never succeeds, and panics unless memory runs out before |
| Uvm.Freewalk | kernel/vm.c:260-278 | frees the table pages of a tree without leaves, each exactly once, and nothing else; the panic is not reached |
| Uvm.Uvmfree | kernel/vm.c:280-288 | exactly the memory and the page table of the process are free; panics exactly for a size above MAXVA |
| Uvm.ProcFreepagetable | kernel/proc.c:208-216 | the same for a whole process of any size, and the two pages that it shares are kept |
| Fork.Uvmcreate | kernel/vm.c:176-187 | an empty page table on a page of its own, or there was no free page |
| Fork.ProcPagetable | kernel/proc.c:174-206 | a page table with exactly the trampoline and the trapframe; or, after its own undo in each of three places, all tables and pages are as before, and fewer than five pages were free |
| Fork.Freeproc | kernel/proc.c:152-172 | frees exactly the trapframe, the page table if there is one, and the memory that it maps; panics exactly if there is a page table and the size is above MAXVA, which lazy sbrk() allows |
| Fork.Kfork | kernel/proc.c:109-303 | from the trapframe page on: the child has a trapframe, a page table and a copy of the memory of its own, with the same at every address below the size; or tables, memory and the use of every page are as before, the free list has the same pages once each, and there were too few; with a size above the trapframe page, which lazy sbrk() allows, it never succeeds, and panics unless memory runs out before |
| UserMem.Walkaddr | kernel/vm.c:117-138 | the physical page exactly of a user page |
| UserMem.Vmfault | kernel/vm.c:448-473 | at most, an absent page below the size becomes zeroes, and it does if there is memory; the process cannot tell; panics exactly for an address below the size and not below MAXVA |
| UserMem.Copyout | kernel/vm.c:339-375 | exactly the bytes at the destination change; succeeds exactly where the process could write, if there is memory for missing pages; on failure only a prefix has changed; never panics, for any size |
| UserMem.Copyin | kernel/vm.c:377-403 | exactly the bytes at the source, and the process sees no change; succeeds exactly where the process could read, if there is memory for missing pages; panics exactly if the range goes on from there beyond MAXVA, and the size too, if there is memory |
| UserMem.RoundTrip | kernel/vm.c:339-403 | copyin() after copyout() returns the source, for every split into pages |
| Spinlock.RunKeepsInv | kernel/spinlock.c:19-113 | in every interleaving: noff counts the locks held and the open push_off()s, the lock word is set while a CPU is inside, and lk->cpu names the holder |
| Spinlock.MutualExclusion | kernel/spinlock.c:19-72 | no two CPUs hold a lock |
| Spinlock.HoldingIsExact | kernel/spinlock.c:74-82 | holding() is right on every CPU, though it reads without the lock |
| Spinlock.InterruptsOff | kernel/spinlock.c:84-113 | interrupts are off from the start of acquire() to the end of the last release(), in whatever order locks are released |
| Spinlock.ReleaseRestores | kernel/spinlock.c:102-113 | the last release() restores the interrupt state from before the first acquire(), earlier ones leave interrupts off, and pop_off() does not panic |
| Spinlock.PanicsAreMisuse | kernel/spinlock.c:19-82 | a step panics exactly if it acquires a lock that the CPU holds or releases one that it does not hold |
| SleepLock.RunKeepsInv | kernel/sleeplock.c:21-41 | the invariant of sleep locks over sleep() and wakeup() in every interleaving, with preemption wherever no lock is held |
| SleepLock.MutualExclusion | kernel/sleeplock.c:21-52 | at most one process has the sleep lock, and it is the one that the lock records |
| SleepLock.TakenExactly | kernel/sleeplock.c:21-41 | the lock is taken exactly while some process is between acquiresleep() and releasesleep(), and records that one: releasing gives it up |
| SleepLock.SleepImpliesLocked | kernel/proc.c:537-584 | no lost wakeup: whenever lk->lk is free, a process that sleeps on the lock, or is committed to, does so because the lock is held |
| ExitWait.RunKeepsInv | kernel/proc.c:256-487 | the invariant of fork, exit, wait, sleep, wakeup and the scheduler in every interleaving, with preemption wherever no lock is held |
| ExitWait.PreemptedFork | kernel/trap.c:154-156 | a run in which a process is preempted between the locks of kfork(), with its child half made |
| ExitWait.ParentsAreAlive | kernel/proc.c:305-363 | every process but init that has been started has a parent that is neither unused nor a zombie |
| Lineage.ParentMadeIt | kernel/proc.c:256-363 | in every run, the parent of a started process is the process, by slot and pid, whose kfork() made it; from when that one is in kexit() and reparent() has come past the child, or is gone, it is initproc |
| Lineage.ChildrenGoToInit | kernel/proc.c:305-363 | when a process becomes a ZOMBIE, exactly the processes that were its children when it took wait_lock in kexit() have initproc as their parent; no other parent has changed since, nobody else has held wait_lock, and it has no children |
| Lineage.ReapedByMaker | kernel/proc.c:365-412 | kwait() reaps only processes that its own process made, or initproc does |
| Lineage.NoneIsLost | kernel/proc.c:256-412 | from its kfork() on, a process is in its slot with its pid until it has been reaped, and never after |
| ExitWait.NoMissedZombie | kernel/proc.c:365-412 | whenever wait_lock is free, no process that sleeps in kwait(), or is committed to, has a zombie child |
| ExitWait.AsleepOnChannel | kernel/proc.c:537-603 | a process that is asleep is on a channel, and one that has left sleep(), or an unused slot, is on none |
| ExitWait.ReapedOnce | kernel/proc.c:365-412 | no process is reaped twice |
| ExitWait.RunningOnOneCpu | kernel/proc.c:414-487 | a RUNNING process is c->proc of exactly one CPU, and one that the scheduler can pick is c->proc of none |
| Virtio.Table.AllocDesc | kernel/virtio_disk.c:155-166 | the first free descriptor; -1 exactly if none is free |
| Virtio.Table.Alloc3Desc | kernel/virtio_disk.c:198-213 | three different free descriptors; or there are not three, and nothing has changed |
| Virtio.Table.FreeChain | kernel/virtio_disk.c:184-197 | exactly the three descriptors of the chain are free and clear |
| VirtioRing.RunKeepsInv | kernel/virtio_disk.c:215-327 | the invariant of driver and device in every interleaving |
| VirtioRing.Partition | kernel/virtio_disk.c:155-327 | free descriptors and the chains of three of requests in progress partition the table |
| VirtioRing.DeviceSeesRequests | kernel/virtio_disk.c:215-292 | the device takes requests in the order made; following the flags of the descriptors it reads from each chain the request that was made, exactly if its block number fits in 31 bits, because the sector is computed with 32; and the chain, which ends after three, lets it write the status byte and, for a read alone, the buffer |
| VirtioRing.RequestIsCarriedOut | kernel/virtio_disk.c:215-327 | when virtio_disk_rw() returns, the device has done its request since it was made: a write put on the block what the buffer held when it was made, and changed no other block; after a read the buffer holds what was on the block |
| VirtioRing.AvailIsNotOverwritten | kernel/virtio_disk.c:271-278 | no entry that the device has not read is overwritten, though the index wraps at 16 bits |
| VirtioRing.UsedEntriesAreLive | kernel/virtio_disk.c:294-327 | a completion that the driver has not seen names a chain in use, finished without error, with its buffer recorded: the interrupt handler's panic is not reached |
| VirtioRing.ReturnsWhenDone | kernel/virtio_disk.c:284-292 | a request returns only after the device has finished it and the driver has seen that, and frees exactly its own descriptors |
| Malloc.BlocksPartition | user/umalloc.c:24-90 | blocks that share a unit are the same block, and every unit from sbrk() is in a block |
| Malloc.JoinedKeepsInv | user/umalloc.c:24-44 | putting a block on the list and joining it with free neighbours keeps the list ordered, disjoint and coalesced, and loses no unit |
| Malloc.TakenKeepsInv | user/umalloc.c:74-84 | so does taking a block that fits exactly |
| Malloc.SplitKeepsInv | user/umalloc.c:74-84 | and cutting the tail off a larger one |
| Malloc.Allocator.FindPlace | user/umalloc.c:30-32 | the loop ends, at the free block after which the block belongs |
| Malloc.Allocator.Free | user/umalloc.c:24-44 | the block is no longer live and its units are free, joined on both sides; no other block changes hands |
| Malloc.Allocator.Morecore | user/umalloc.c:46-61 | null exactly if sbrk() of the size, taken as a 32-bit int, fails, and then nothing changes; otherwise the units, at least 4096 of them, are free; all blocks are memory of the process if and only if the size is below 2^31 |
| Malloc.Allocator.Malloc | user/umalloc.c:63-90 | a new live block of exactly the rounded size; null exactly if nothing fits and sbrk() fails; morecore() at most once and only if nothing fits; the loop ends; all blocks stay memory of the process if and only if no memory was added or the request was at most 0x7FFFFFE0 bytes |
| Malloc.LargestFits | user/umalloc.c:46-61 | the largest request whose size in bytes is still an int |
| Malloc.HugeRequests | user/umalloc.c:46-61 | requests on which sbrk() is called with a negative amount, or with 0, and reports success |
| ShellGrammar.ParserIsGrammar | user/sh.c:335-455 | the parser accepts exactly the token sequences of the grammar and returns exactly their tree: arguments in order, the last redirection outermost |
| Shell.GetToken | user/sh.c:273-315 | the next token, with the longest match for >>; never past the end |
| Shell.TokensAreLexed | user/sh.c:268-315 | the tokens of an input are the one way to divide it into symbols, >> and words with only blanks around them, each as long as it can be |
| Shell.Peek | user/sh.c:317-327 | whether the next token is one of a set; skips only blanks |
| Shell.ParseLineCmd | user/sh.c:351-366 | ends, never moves past the end, and returns the grammar's tree and the position after it |
| Shell.ParsePipeCmd | user/sh.c:368-379 | the same for a pipeline |
| Shell.ParseExecCmd | user/sh.c:424-455 | the same for a command with arguments and redirections, or a block |
| Shell.ParseBlockCmd | user/sh.c:408-422 | the same for a block in parentheses |
| Shell.ParseRedirections | user/sh.c:383-406 | the redirections that come next, in order |
| Shell.Nulterminate | user/sh.c:457-502 | puts a 0 after every argument and file name, and changes nothing else |
| Shell.LineGood | user/sh.c:335-455 | every word of the tree is a whole word of the input |
| Shell.CStrings | user/sh.c:457-502 | as a C string, every argument and file name is the word that was in the input |
| Shell.ParseCmd | user/sh.c:334-349 | a tree exactly for an input that the grammar derives, the right one, with its words terminated; otherwise a panic |
| ShellRun.FirstRedirectionWins | user/sh.c:59-131 | run by runcmd(), a command gets the file of its first redirection for reading and of its first for writing, because the tree has the last one outermost |
| ShellRun.PipelineRuns | user/sh.c:59-131 | a pipeline runs its commands in order, and the output of each is the input of the next, unless they are redirected |
| Grep.MatchIsExact | user/grep.c:91-127 | match() returns a value if and only if it does not stall and the value is whether the pattern matches somewhere |
| Grep.MatchIsRight | user/grep.c:91-127 | for every pattern without .* and every text it returns, and is right |
| Grep.DotStarDoesNotReturn | user/grep.c:119-127 | a pattern with .* on which match() never returns, on a text that it matches and on one that it does not |
| Grep.IgnoreCase | user/grep.c:13-17 | with -i, match() does step for step what it does without on pattern and text in lower case |
| Grep.SameIsSameLetter | user/grep.c:13-17 | with -i two characters are the same exactly if they are equal, or stand at the same place of the upper and the lower case alphabet |
| Grep.CaseDoesNotMatter | user/grep.c:91-127 | with -i, changing the case of any letters of pattern and text changes neither whether match() returns nor what it returns |
| Grep.MatchHere | user/grep.c:103-117 | whether the pattern matches at the start of the text, where it returns |
| Grep.MatchStar | user/grep.c:119-127 | whether c* and the rest match at the start of the text, where it returns |
| Grep.Match | user/grep.c:91-101 | whether the pattern matches somewhere, where it returns |

## Left out

- Bio.BCache.Get: device numbers other than the root device are not modelled, because the system has one disk.
- Log.Log.Commit: runs as one method while no other process has a buffer locked; processes that read blocks during a commit are not modelled.
- Log.Log.TryBeginOp: one turn of the loop; sleeping and waking is in `GroupCommit`.
- FileSys.FileSystem.Balloc: the bitmap is a sequence of booleans; `FsImage` and `FsCrash` tie it and the inodes to blocks.
- Truncate.Ireclaim: looks at the inode in memory; the source looks at the buffer of its block, where iupdate() has put the same.
- Namespace.FileTree.Create: nlink and inode numbers are unbounded, and do not wrap at 16 bits.
- Namespace.FileTree.Link: the lookup of both paths is a parameter, as is whether the directory has room.
- Symlinks.Follow: what links contain is a parameter; the checks of sys_open() after the loop are not modelled.
- Vm.PhysMem.Kalloc: pages have numbers instead of addresses; the junk that fills free pages, and concurrent callers, are not modelled.
- Vm.PhysMem.Walk: reads and writes of the accessed and dirty bits, and translation caches, are not modelled.
- FileOps.FilewriteShared: what other processes do between operations is a parameter that keeps the file system's invariant and the inode allocated.
- FsCrash.FilewriteSurvivesCrashes: other processes' operations do not change the bytes or the inode of the file; device inodes' major and minor numbers are not part of an inode.
- Itable.Table.Ilock: the sleep lock of the inode is not modelled.
- Dirents.Dirlink: bounded 16-bit inode numbers and names without 0 characters, which its callers pass.
- Fork.Kfork: the process table and open files are not modelled; sizes in the last page below 2^64, which round up to 0, are not either.
- Spinlock.RunKeepsInv: sched() carries intena from one CPU to another, which is not modelled; stores are seen in program order.
- SleepLock.RunKeepsInv: one sleep lock; which CPU a process is on is not modelled.
- ExitWait.RunKeepsInv: what is done under one p->lock is one step; pids do not wrap; files and memory of the processes are not modelled.
- VirtioRing.RunKeepsInv: stores are seen in program order, and the device reports no errors; all requests are for whole blocks.
- Malloc.Allocator.Morecore: the break is a multiple of 16 when malloc() is called, and only malloc() moves it.
- Shell.ParseCmd: command nodes are values instead of heap objects that parseexec() fills in.
- ShellRun.PipelineRuns: every fork(), pipe(), open() and exec() succeeds; the order in time of the programs, and cd, are not modelled.
- Grep.Match: the line buffering of grep() is not modelled.
- copyinstr(), kvmmake(), exec, pipes, the console, traps, the UART and PLIC drivers, mkfs: not modelled.
- Opening files beyond link resolution (the file table, O_APPEND, O_TRUNC): not modelled.
- Fairness of the scheduler and of spin locks: not modelled; nothing in the code bounds the waiting.
