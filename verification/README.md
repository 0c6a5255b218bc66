# xv6 with shared memory: verified models

This project models the hard parts of an xv6 kernel for x86 to which System V style shared memory
has been added, and proves what those parts are for.  Each module follows one piece of the system.

- **Crash-safe disk.**  `RedoLog` is the theory of the redo log on a disk that changes one block at a
  time; `BufferCache` and `Log` are bio.c and log.c as classes, proved to write exactly the block
  sequences the theory speaks of.  `LogReservation` is the interleaving of begin_op(), log_write() and
  end_op(), which `Log` runs through.  `Crash` puts the file system on it: after a crash anywhere, a call has
  happened or it has not.
- **File system.**  `FreeMap`, `Ownership` and `Inodes` cover the bit map, the block numbers in inodes
  and indirect blocks, and who holds which block.  `FileContents` is readi(), writei() and filewrite() on
  flat byte sequences, `Directory` the 16-byte entries as a finite map, `Paths` the inode cache and
  namex(), and `LinkCounts`, `Links`, `Unlink`, `Create` and `Capacity` the link counts.  `InodeBlocks` is the layout of the
  inodes on disk, and `Orphans` a run of the calls to where two of the conditions below fail.
- **Memory.**  `Umalloc` is the user-level heap, `PageOwner` and `Vm` the two-level page tables over the
  page allocator, `Shm` the segment table and the attachments of shared memory.
- **Processes.**  `Proc` is the process table, `Pipe` a pipe with sleep() and wakeup(), both as state
  machines whose steps interleave in every order the locks allow.
- **User programs.**  `Grep` is the regular-expression matcher, `Shell` the command parser.

Code that works in place is a class or a method with loops over arrays and sequences, proved against a
specification; pure theory about those specifications is functions and lemmas.  Protocols are state
machines, and their theorems are about every run.  A panic of the kernel is a result (`None`, `Panic` or
`false`), and the contracts of the file system calls say exactly when it happens, in terms of the state before.
`Common` holds the parameters and types that several models share.  `Ready` (in `Links`) is what holds between
calls of the file system: `Create.Boot` establishes it, and link(), unlink() and create() keep it.

`dafny verify dfyconfig.toml` checks everything.

## What turned out to be conditional

- log_write() can panic if and only if operations may log MAXOPBLOCKS distinct blocks or more:
  `LogReservation.PanicsFromLimit`.  A chunk of a write logs at most 7, link() 5, unlink() 8, and create() 9, on a
  disk that one map block covers.
- A wakeup of a pipe is lost if and only if a killed writer gives up on a full pipe while a reader is asleep or
  going to sleep: `Pipe.NoLostWakeup`, `Pipe.ExactlyLossy` and `Pipe.LossyLosesWakeup`; `Pipe.KilledWriterLosesWakeup`
  is a run with such a step.  The order of bytes does not need that condition.
- Link counts stay equal to the entries exactly when nothing is added to a directory that is itself
  unlinked: `LinkCounts.LinkKeeps` and `LinkCounts.MakeKeeps`.  `Orphans.OrphanCreatesWrongCounts` is a run from the
  first state to wrong counts.  The calls are modelled from states with right counts.
- namex() panics exactly if the path goes on from an inode that has been freed, or there is no cache entry for the
  next one: `Paths.Namex` and `Paths.PanicsOnFreed`.  The ".." of an unlinked directory can name a freed inode:
  `Orphans.FreedParentPanics` is a run that ends in this panic.
- malloc() serves a request as it should, with a block that has the room or with null, exactly up to 0x7FFFFFF0 bytes:
  `Umalloc.ServedExactly` and `Umalloc.Heap.Malloc`.  Above that sbrk() is called with an int that is not the number
  of bytes wanted; it succeeds without adding memory, or takes memory away (`Umalloc.GrownExactly`;
  `Umalloc.TwoGigabytes` is such a request).  From 2^32 - 7 bytes on it is the number of units that wraps, and the
  block has no room.
- mkfs rounds the root directory up to whole blocks, which leaves a hole exactly when the entries fill
  their last block: `Create.RootRounding`.
- A shared page's address goes through V2P() twice; the result is right for kfree() and lies above the
  memory of the machine as the frame to map: `Shm.TranslatedTwice`.  The model maps pages by an opaque handle.
- shmget() with IPC_CREAT on a key whose segment is larger than the request makes a second segment with
  the same key, and the EINVAL for an existing key that types.h:17 announces is in a branch that is never taken
  (shm.c:242-251).  The model does what the code does: `Shm.Shared.Shmget`.
- `>>` opens its file exactly as `>` does (sh.c:391-393), and kill(0) finds unused table entries, whose pid is
  0 (proc.c:503-520); the models keep both.

## Model

| member | source | states |
|---|---|---|
| `Blocks.WordAfterPut` | log.c:102-113 | a 32-bit word stored in a block, little-endian as on x86, is read back and no other word changes |
| `RedoLog.HeaderRoundTrip` | log.c:86-113 | read_head() gets back exactly the count and block numbers that write_head() stored |
| `RedoLog.OverlayIdempotent` | log.c:70-82 | installing a transaction over any prefix of itself gives the whole transaction |
| `RedoLog.InstallPrefix` | log.c:70-82 | after any number of install writes the disk still commits to the same contents, and home is the matching prefix |
| `RedoLog.RecoverCut` | log.c:116-122 | a recovery cut after any block write leaves the committed contents unchanged; a complete one leaves a clean disk with them at home |
| `RedoLog.CommitPoint` | log.c:193-202 | right after write_head() the disk commits to the new transaction, and a recovery would write exactly the rest of commit() |
| `RedoLog.BeforeCommitPoint` | log.c:178-190 | any prefix of write_log() leaves the disk clean with its old home blocks |
| `RedoLog.AfterCommitPoint` | log.c:193-202 | from the header write on every cut of commit() commits to the whole transaction |
| `RedoLog.CommitCut` | log.c:193-202 | commit() cut after any block write includes its transaction exactly when the header write happened |
| `RedoLog.CrashAtomicity` | log.c:69-202 | over every run of commits and of repeatedly interrupted recoveries the disk commits to exactly the transactions whose header write happened, in order, and has them at home whenever the machine is up |
| `BufferCache.MoveToFront` | bio.c:131-138 | unlinking and relinking a buffer gives the ring in its new order with all NBUF buffers |
| `BufferCache.SomeRecyclable` | bio.c:80-92 | if fewer than NBUF blocks are pinned or in use a buffer can be recycled |
| `BufferCache.WriteConsistent` | bio.c:110-116 | writing a locked buffer keeps: one buffer a block, unloaded blocks up to date on disk, pinned blocks loaded and dirty |
| `BufferCache.ReleaseConsistent` | bio.c:121-141 | so does releasing a buffer whose changes are logged or written |
| `BufferCache.Cache.constructor` | bio.c:39-56 | after binit() the ring holds every buffer, all free, and the latest contents are those on disk |
| `BufferCache.Cache.Bget` | bio.c:62-93 | the buffer of a cached block, else the least recently used one that is neither in use nor dirty; the panic happens exactly when there is neither |
| `BufferCache.Cache.Bread` | bio.c:97-106 | the locked buffer holds the latest contents of the block, whether or not they have reached the disk; the panics happen exactly when there is no buffer, or the block is not on the disk |
| `BufferCache.Cache.Fill` | bio.c:101-105 | whoever holds the sleep-lock, also after a sleep, has the latest contents of the block |
| `BufferCache.Cache.Pin` | log.c:232 | B_DIRTY keeps the block from being recycled before it is written |
| `BufferCache.Cache.Bwrite` | bio.c:110-116 | exactly one block of the disk changes, to the buffer's data, and the buffer is clean |
| `BufferCache.Cache.Brelse` | bio.c:121-141 | the last reference moves the buffer to the front of the ring; no contents change |
| `Log.Log.LogWrite` | log.c:214-233 | a block is recorded once however often it is logged, and pinned; the panics happen exactly on a full log or outside an operation |
| `Log.Log.NeverFull` | log.c:126-174 | in every state that begin_op(), log_write() and end_op() of operations within the limit lead to, the log has room and commit() has the buffers it needs |
| `Log.Log.BeginOp` | log.c:126-141 | the operation is admitted exactly when no commit is under way and the log has room for MAXOPBLOCKS blocks of every running operation, else the process sleeps; a step of the interleaving model |
| `Log.Log.OpWrite` | log.c:214-233 | log_write() by an operation that stays within the limit never panics; a step of the interleaving model |
| `Log.Log.EndOp` | log.c:146-174 | the last operation commits: the block writes are exactly those of `RedoLog.CommitCut`, commit() finds its buffers, and the latest contents are at home; any other leaves the disk alone, and is a step of the interleaving model |
| `Log.Log.WriteHead` | log.c:102-113 | the header block names the logged blocks, in one block write |
| `Log.Log.WriteLog` | log.c:178-190 | the latest contents of the logged blocks go to the log, one write each, in order |
| `Log.Log.InstallTrans` | log.c:70-82 | the log blocks go to their home blocks and nothing stays pinned |
| `Log.Log.ReadHead` | log.c:86-96 | the header in memory becomes the one on disk, and nothing is written |
| `Log.Log.RecoverFromLog` | log.c:116-122 | the block writes are exactly those of `RedoLog.RecoverCut`, and home becomes what the disk was committed to |
| `Log.Log.Commit` | log.c:193-202 | the block writes are exactly those of `RedoLog.CommitCut` for the logged blocks' latest contents, a buffer is found for every step while n < NBUF, and home on disk becomes the latest contents |
| `LogReservation.Reservation` | log.c:126-174 | in every interleaving of operations of at most MAXOPBLOCKS - 1 blocks the log holds at most LOGSIZE - 2, log_write() does not panic, commits run only with no operation outstanding, and a sleeper in begin_op() always has somebody to wake it |
| `LogReservation.NobodyWaitsInVain` | log.c:126-174 | whatever operations log, nobody sleeps in begin_op() who could begin |
| `LogReservation.FullOperationsCanPanic` | log.c:214-221 | with operations of MAXOPBLOCKS blocks a state is reachable in which log_write() panics on a log of LOGSIZE blocks |
| `LogReservation.PanicsFromLimit` | log.c:214-221 | log_write() can panic exactly when operations may log MAXOPBLOCKS distinct blocks or more |
| `LogReservation.WithinLimit` | log.c:214-233 | an operation that logs the blocks of a small enough set, in any order, stays within the limit |
| `FreeMap.SetUsed` | fs.c:65-70 | setting the bit of one block marks that block in use and no other |
| `FreeMap.ClearUsed` | fs.c:88-92 | clearing the bit of one block marks that block free and no other |
| `Ownership.HeldOnce` | fs.c:372-400 | no block number is in two slots of inodes or indirect blocks, and its bit is set |
| `Ownership.Grow` | fs.c:373-400 | an empty slot that takes a free block keeps the ownership invariant |
| `Ownership.Shrink` | fs.c:408-435 | a slot that gives its block up keeps the ownership invariant |
| `Inodes.FileSys.constructor` | fs.c:57-78 | an image with free inodes only satisfies the ownership invariant |
| `Inodes.FileSys.FirstFree` | fs.c:57-78 | the scan over the map blocks finds the lowest free block, or the disk is full |
| `Inodes.FileSys.Balloc` | fs.c:57-78 | the lowest free block, zeroed and marked, other data blocks untouched; the panic happens exactly when no block is free |
| `Inodes.FileSys.Bfree` | fs.c:82-95 | the bit is cleared and nothing else changes; the panic happens exactly when the block is free |
| `Inodes.FileSys.Bmap` | fs.c:373-400 | the block of any file block, allocated zeroed if it was missing, never one that was held; no other slot and no contents change, an existing block changes nothing, and it fails exactly when fewer blocks are free than it needs for the block and its indirect block |
| `Inodes.BlockNumber` | fs.c:373-400 | the numbers of the first twelve blocks of a file are in its inode, the others in the indirect block |
| `Inodes.RoomIs` | fs.c:57-78 | the map has no free block exactly when every block of the data area is owned |
| `Inodes.FileSys.Itrunc` | fs.c:408-435 | exactly the inode's own blocks become free, each once and never "freeing free block"; no other bit, slot or block changes |
| `Inodes.FreedExactly` | fs.c:408-435 | when the ownership invariant holds before and after, the bits cleared are exactly those of the inode's blocks |
| `Inodes.FileSys.Iupdate` | fs.c:221-236 | the inode on disk becomes the one in memory, and its block is logged |
| `InodeBlocks.InodeAfterPut` | fs.c:221-236 | an inode stored in its block, four shorts and fourteen words, is read back, and the seven others of the block are as before |
| `InodeBlocks.InodeLayout` | fs.h:29-36 | the bytes at which each field of an inode is stored, least significant first |
| `InodeBlocks.InodesAfterPut` | fs.c:288-312 | every inode of a block full of them is read back |
| `FileContents.StoreWrote` | fs.c:499-505 | storing in the block of one file offset changes those bytes of that file and no byte of any other |
| `FileContents.MapReadsSame` | fs.c:373-400 | mapping a missing block changes no byte of any file |
| `FileContents.Readi` | fs.c:453-476 | the bytes of the flat contents from off, cut at the size; -1 exactly for off past the size or a 32-bit wrap; without holes nothing changes, and it panics exactly when the holes it has to fill need more blocks than are free; this is for a call within a transaction, as log_write() panics on a hole when no operation is outstanding |
| `FileContents.Writei` | fs.c:482-511 | the flat contents become the old ones with src written over them at off, the size the larger of old size and end; every other file is unchanged; -1 exactly for off past the size or an end past MAXFILE blocks; the panic exactly when the missing blocks, with their indirect block, are more than are free; no hole appears, and in a file without holes the inode on disk stays equal to the one in memory |
| `FileContents.NeedsStep` | fs.c:482-511 | what a write takes in blocks is what its first part takes and what the rest takes then |
| `FileContents.ChunkLogs` | file.c:133-152 | a transaction that touches only what a chunk of a write touches logs at most 7 distinct blocks when one map block covers the disk |
| `FileContents.WriteChunk` | file.c:136-145 | one transaction of filewrite(): begin_op(), writei() and at most 7 blocks logged |
| `FileContents.Filewrite` | file.c:118-156 | the contents become those with the chunks that fit written at the offset, the offset advances by as much, n is returned exactly when everything fits, it panics exactly when those chunks need more blocks than are free, and every transaction logs at most 7 blocks |
| `Directory.Strncmp` | string.c:59-66 | 0 exactly when the strings agree up to a NUL or n bytes, else the difference of the first bytes that differ |
| `Directory.Namecmp` | fs.c:517-520 | 0 exactly when the two stand for the same name cut to 14 bytes |
| `Directory.Strncpy` | string.c:69-79 | the n bytes stand for the same string, padded with NULs |
| `Directory.MapOfIs` | fs.c:525-548 | the finite map of a directory has exactly its live entries |
| `Directory.PutKeeps` | fs.c:552-578 | a new name in a free entry or after the last adds that name to the map and keeps names unique |
| `Directory.ClearKeeps` | sysfile.c:215-217 | zeroing an entry takes its name out of the map and nothing else |
| `Directory.FindsIsLookup` | fs.c:525-548 | the first matching entry is what the map has under the name |
| `Directory.Dirlookup` | fs.c:525-548 | the first live entry with the name, cut to 14 bytes, or none; nothing changes |
| `Directory.Dirlink` | fs.c:552-578 | the map gains the name, in the first free entry; -1 and no change exactly when the name is there; the panic exactly when no entry is free and the directory cannot grow, by size or by free blocks; every other file is unchanged |
| `Directory.NotCrowded` | fs.c:552-578 | a directory with fewer names than fit and two free blocks has room for another |
| `Directory.EraseEntry` | sysfile.c:215-217 | the map loses the entry's name, every other entry stays in place, and the write never fails |
| `Directory.Isdirempty` | sysfile.c:169-181 | true exactly when no entry from the third on is live |
| `Paths.Skipelem` | fs.c:596-618 | the first element of the path, cut to 14 bytes, goes to name, and the rest has exactly the other elements and is empty exactly after the last |
| `Paths.ElementsSplit` | fs.c:596-617 | the elements of a path are those of the path before a slash and those of the path after it |
| `Paths.OneElement` | fs.c:596-617 | a name without slashes is its only element |
| `Paths.PathOn` | fs.c:625-657 | the path a/b leads where b leads from where a leads |
| `Paths.AbsoluteOrRelative` | fs.c:629-632 | a path that begins with a slash starts at the root, so that its target and its panics do not depend on the working directory; any other, the empty one too, starts at the working directory |
| `Paths.ICache.constructor` | fs.c:172-186 | no references |
| `Paths.ICache.Iget` | fs.c:242-272 | the inode's one entry, or the first free one, with one reference more; the panic happens exactly when there is neither |
| `Paths.ICache.Idup` | fs.c:277-283 | one reference more to that inode and no other change of counts |
| `Paths.ICache.Ilock` | fs.c:288-312 | the panic happens exactly on a free inode that is not yet read; no count changes |
| `Paths.ICache.Iput` | fs.c:332-352 | one reference less; an inode that has been read is freed with all its blocks exactly if it has no links and that was the last reference, else the file system is unchanged |
| `Paths.TargetStep` | fs.c:625-657 | looking a path up is looking its first element up and going on from there |
| `Paths.Namex` | fs.c:625-657 | the result is the inode, or the parent directory, that looking the elements up in turn leads to; reference counts change by one on the result only; it panics exactly when the path goes on from a freed inode, or no cache entry is left for the next inode while the last is held |
| `Paths.PanicsOnFreed` | fs.c:625-657 | with two cache entries to spare it panics exactly when the path goes on from a freed inode |
| `LinkCounts.LinkKeeps` | sysfile.c:119-165 | linking a file keeps every count equal to the entries naming the inode exactly when the directory is itself linked |
| `LinkCounts.RemoveKeeps` | sysfile.c:185-239 | unlinking a file keeps the counts right |
| `LinkCounts.EmptyHasOneLink` | sysfile.c:203-208 | an empty directory has one link, and its parent at least two |
| `LinkCounts.RemoveDirKeeps` | sysfile.c:215-229 | unlinking an empty directory keeps the counts right and leaves it with none |
| `LinkCounts.FreeKeeps` | fs.c:332-352 | freeing an inode without links keeps the counts right |
| `LinkCounts.MakeKeeps` | sysfile.c:242-283 | making a directory keeps the counts right exactly when the directory it is made in is itself linked |
| `LinkCounts.OnlyRootGood` | mkfs.c:117-129 | the counts are right in an image with the root directory only |
| `Links.NlinkTarget` | fs.c:625-657 | where a path leads does not depend on link counts |
| `Links.SysLink` | sysfile.c:119-165 | -1 exactly when the old path leads nowhere or to a directory, the new one has no parent directory, or the name is taken, and then inodes, disk and references are as before; on success exactly that name is added, all other files keep their contents, and the counts are right exactly if the directory is linked; it panics exactly when a path lookup does, the old path ends in a freed inode, or the directory has no room; at most 5 blocks are logged |
| `Unlink.SysUnlink` | sysfile.c:185-239 | -1 exactly when there is no such name, it is "." or "..", or it names a directory that is not empty, and then everything is as before; on success the name is gone, the counts are right, all other files keep their contents, and the inode is freed with its blocks exactly with the last link and no reference; it panics exactly when the path lookup does or there is no cache entry for the inode; at most 8 blocks are logged |
| `Unlink.OnlyDots` | sysfile.c:169-181 | a directory that isdirempty() accepts has nothing but "." and ".." |
| `Unlink.NotOnlyDots` | sysfile.c:169-181 | one that it rejects has another name |
| `Unlink.FreedTree` | fs.c:332-352 | freeing an inode without links leaves every other file's contents, the directory tree and the counts in order |
| `Create.Ialloc` | fs.c:195-214 | the lowest free inode from 1 on, empty; none exactly when all are taken |
| `Create.MakeDots` | sysfile.c:269-275 | the new directory has exactly "." and "..", in its first two entries |
| `Create.Create` | sysfile.c:242-283 | 0 exactly when there is no directory for the name, or the name is there and is not that of a file to be opened, and then everything is as before; a new name gives the lowest free inode, with the kind and device asked for, empty but for a directory's dots; all other files keep their contents, the counts are right exactly if the directory is linked, and there is one new reference, on the result; it panics exactly for want of an inode, a cache entry, a block or an entry, on a freed inode, or in the path lookup; at most 9 blocks are logged |
| `Create.SysMake` | sysfile.c:336-369 | mkdir() and mknod() make exactly that node and keep no reference, or fail and change nothing |
| `Create.RootRounding` | mkfs.c:156-161 | rounding the root directory up leaves no hole exactly when its entries do not fill a block |
| `Create.MakeRoot` | mkfs.c:117-129 | the image with the root directory only is in order, with the counts right, for one block |
| `Create.Boot` | proc.c:143 | with that image and the root as current directory the calls above can start |
| `Capacity.LinksFit` | fs.h:29-36 | right counts are at most the entries that fit in the data area, so that those of a disk of FSSIZE blocks fit in the 16 bits of nlink |
| `Orphans.Orphan` | sysfile.c:185-239 | a run of the calls from the first state to a directory that is unlinked while a process has it as its working directory |
| `Orphans.FreedParentPanics` | fs.c:625-657 | a run of the calls from the first state to a path "../x" on which namex() panics |
| `Orphans.OrphanCreatesWrongCounts` | sysfile.c:242-283 | a run of the calls from the first state to counts that are wrong, by creating a file or a directory in the unlinked directory |
| `Crash.TxInstalls` | log.c:178-202 | what an operation changes, in inodes, map and data, is exactly what the transaction of its logged blocks installs |
| `Crash.ReadsBack` | fs.c:288-312 | whoever mounts the home blocks of a file system reads its inodes, ownership and contents |
| `Crash.AllOrNothing` | log.c:69-202 | for every cut of the commit of an operation the recovered home blocks hold the file system before it or the one after it |
| `Crash.UnlinkSurvives` | sysfile.c:185-239 | a crash at any block write of unlink()'s commit leaves, after recovery, the file system with the whole unlink or without it; the inodes' fields still fit in 16 bits |
| `Crash.LinkSurvives` | sysfile.c:119-165 | so does one of link()'s, where the counts fit in 16 bits, as they do on a disk with fewer than 1024 data blocks |
| `Crash.MakeSurvives` | sysfile.c:336-369 | so does one of mkdir()'s or mknod()'s, likewise |
| `Crash.OpenSurvives` | sysfile.c:294-301 | so does one of open()'s with O_CREATE, likewise; it logs at most 9 blocks |
| `Crash.ChunkSurvives` | file.c:136-145 | so does one of a chunk of a write |
| `Crash.ChunkReserved` | file.c:125-152 | a chunk of a write stays within the limit under which log_write() never panics |
| `Crash.EndsAtomically` | log.c:146-174 | the block writes of end_op() are those of the operation's transaction, so that every cut of them is safe |
| `Umalloc.RoomForRequest` | umalloc.c:69 | the units computed for a request have room for it exactly when the sum does not wrap |
| `Umalloc.ServedExactly` | umalloc.c:47-69 | the units have room for the request and sbrk() is asked for exactly their bytes, if and only if the request is at most 0x7FFFFFF0 bytes |
| `Umalloc.GrownExactly` | proc.c:158-175 | in a process of any size sbrk() gives the units or refuses and changes nothing, exactly if their bytes are fewer than 2^31; otherwise it gives none and succeeds, or takes memory away |
| `Umalloc.TwoGigabytes` | sysproc.c:45-57 | for a request of 2^31 bytes sbrk() is called with a negative number and succeeds without adding memory, in every process |
| `Umalloc.Heap.Sbrk` | sysproc.c:45-57 | the old break, with the memory changed as growproc() does; growing can also fail for want of pages |
| `Umalloc.Heap.constructor` | umalloc.c:70-73 | an empty heap |
| `Umalloc.Heap.FindSlot` | umalloc.c:30-32 | the circular search ends, at the free block after which the address belongs |
| `Umalloc.Heap.Free` | umalloc.c:25-44 | the block leaves the live ones, every unit stays accounted for, and the free ring is address-ordered, disjoint and fully coalesced again |
| `Umalloc.Heap.Morecore` | umalloc.c:47-61 | on success some free block has the units asked for and nothing live changed; when sbrk() refuses nothing changed; it goes wrong, with no memory behind the new header, exactly if the bytes are 2^31 or more; the break moves by the units, or by 4096 if that is more |
| `Umalloc.Heap.Malloc` | umalloc.c:64-90 | for every request but those that go wrong in morecore(), which are exactly those from 0x7FFFFFF1 to 2^32 - 8 bytes: a new block of the units computed that overlaps nothing live, or null when the kernel gives nothing; it has room exactly up to 2^32 - 8 bytes; the loop ends, and the kernel is asked at most once and only if no free block is large enough; every unit obtained is in exactly one free or live block |
| `Umalloc.Heap.Disjoint` | umalloc.c:64-90 | live blocks overlap neither each other nor free blocks |
| `Pipe.StoreFifo` | pipe.c:93 | storing a byte keeps the bytes in flight in order, also when the counter wraps |
| `Pipe.CopyFifo` | pipe.c:113-117 | copying a byte out takes the oldest |
| `Pipe.NextKeeps` | pipe.c:60-121 | every step but that of a killed writer that gives up on sleeping readers keeps the invariant of locks, ends, order and wakeups |
| `Pipe.NoLostWakeup` | pipe.c:79-121 | in every interleaving without such a step, with the pipe lock free a reader sleeps only on an empty pipe with a writer, and a writer only on a full pipe with a reader |
| `Pipe.ExactlyLossy` | pipe.c:84-92 | a run has a state in which somebody sleeps, or goes to sleep, without a reason and without a wakeup to come, exactly if it has such a step |
| `Pipe.LossyLosesWakeup` | pipe.c:84-92 | from every such step at most two more lead to a reader asleep on a full pipe with the pipe lock free |
| `Pipe.FirstInFirstOut` | pipe.c:79-121 | in every interleaving the bytes read are a prefix of the bytes written, in order, with at most PIPESIZE in flight |
| `Pipe.CallBytes` | pipe.c:79-121 | however other readers and writers come in between, the bytes a write has stored are the first i of its buffer, in order, and the bytes a read hands to its caller are those it has taken, in order |
| `Pipe.OnlyCalls` | pipe.c:79-121 | bytes are stored only by turns of a write, and copied out only by turns of a read |
| `Pipe.CallsReturn` | pipe.c:60-121 | when it is about to return, a write has stored its whole buffer, or found the pipe full with no reader or itself killed; a read has consecutive bytes of those stored, as many as it wanted or all there were, or found the pipe empty and itself killed; a close has closed its end |
| `Pipe.KilledWriterLosesWakeup` | pipe.c:84-92 | a run in which a killed writer leaves a reader asleep on a full pipe |
| `Proc.Table.Wake` | proc.c:481-488 | exactly the sleepers on the channel become runnable |
| `Proc.Table.PassChildren` | proc.c:279-285 | the exiting process's children go to init, which is woken if one is dead |
| `Proc.Table.Kill` | proc.c:503-520 | the first entry with the pid is marked, and woken if asleep |
| `Proc.SleepSleeps` | proc.c:440-475 | the process sleeps on the channel it asked for, off its CPU |
| `Proc.WakeupWakes` | proc.c:480-497 | after wakeup() nobody sleeps on the channel, its sleepers can run, and all else is as before |
| `Proc.KillWakes` | proc.c:502-520 | the process found is killed and not asleep, and all else is as before |
| `Proc.ExitPasses` | proc.c:250-291 | the process is dead, its children are init's, and a parent that waits for it does not sleep |
| `Proc.Table.FindUnused` | proc.c:82-88 | the first unused entry, or none |
| `Proc.Table.ScanChildren` | proc.c:303-324 | the first dead child, and whether there are children |
| `Proc.NextKeeps` | proc.c:181-415 | every step of fork, exit, wait, kill, sleep, wakeup and the scheduler keeps the invariant of the table |
| `Proc.TableInvariants` | proc.c:181-379 | in every reachable state each running process is on exactly one CPU, every process past EMBRYO but init has a live parent, and nobody sleeps in wait() with a dead child |
| `Proc.ReapedOnce` | proc.c:296-335 | each exited process is returned by wait() at most once, and is there as a zombie until then |
| `PageOwner.Move` | vm.c:222-249 | a frame that goes from one use to another keeps every frame accounted for once |
| `PageOwner.TableWrite` | vm.c:61-80 | writing an entry of a page table changes what exactly one virtual page of one directory reads |
| `PageOwner.NewTable` | vm.c:36-55 | a zeroed page as a new page table changes what no virtual page reads |
| `Vm.Memory.constructor` | kalloc.c:47-53 | every frame from the end of the kernel to PHYSTOP is free, once |
| `Vm.Memory.Kalloc` | kalloc.c:83-95 | a frame nobody uses; none exactly when the list is empty |
| `Vm.Memory.Kfree` | kalloc.c:60-77 | the frame goes back and no directory reads differently |
| `Vm.Memory.Walkpgdir` | vm.c:36-55 | the place of the entry; a page table is made on demand and every virtual page of every directory reads as before; a new one is entered as present, writable and for user code |
| `Vm.Memory.Mappages` | vm.c:61-80 | the pages of the range map to consecutive frames with the flags and every other entry reads as before; it fails exactly when kalloc() does, and the panic needs a page that is present; each page mapped has exactly the permissions asked for, and is present |
| `Vm.Memory.Allocuvm` | vm.c:222-249 | zeroed pages of its own for the new range; it fails exactly when kalloc() does, and then the page map is as before and only page tables are kept; every page from oldsz to newsz is zero, in a frame that was free, and present, writable and for user code |
| `Vm.SkipTable` | vm.c:265-268 | where there is no page table, freeing page by page does nothing |
| `Vm.Memory.Deallocuvm` | vm.c:256-279 | the skipping loop leaves exactly the memory and free list that freeing page by page leaves, and frees exactly the pages of the range |
| `Vm.Memory.Freevm` | vm.c:284-298 | the directory, its page tables and its pages below HEAPLIMIT go back, each once, and no other frame, in particular none mapped in the window for shared memory |
| `Vm.KMapIs` | vm.c:105-115 | the entries of kmap do not overlap, and together they are the kernel's page map |
| `Vm.Memory.Setupkvm` | vm.c:119-136 | the kernel's mappings and nothing below KERNBASE; it fails exactly when kalloc() does, and then the free frames are those from before; the kernel's text is read-only, all other memory and the devices are writable, and none of it is for user code |
| `Vm.Memory.Copyuvm` | vm.c:328-357 | every page below sz has, in a frame that was free, the contents and exactly the flags of the source's, the source unchanged; it fails exactly when kalloc() does, and then the free frames are exactly those from before; it succeeds only if every page below sz is present, and panics only if one is not |
| `Vm.Memory.Clearmapping` | vm.c:315-323 | the page of the window is not present any more; frames and other pages are unchanged |
| `Shm.FirstFit` | shm.c:104-120 | the one-pass scan finds the lowest free run that is long enough, or there is none |
| `Shm.FillKeepsSplit` | shm.c:49-64 | a segment on free entries keeps the table split into free entries and whole contiguous segments |
| `Shm.ClearKeepsSplit` | shm.c:467-483 | freeing a segment keeps the split |
| `Shm.TouchKeepsSplit` | shm.c:505-508 | marking a segment or counting an attachment on all its pages keeps the split |
| `Shm.FillKeepsHandles` | shm.c:128-144 | a new segment takes its pages from the free list, and every page stays in one place, once |
| `Shm.ClearKeepsHandles` | shm.c:467-483 | a freed segment's pages go back, each once |
| `Shm.FillKeepsAttached` | shm.c:81-151 | a new segment disturbs no attachment |
| `Shm.ClearKeepsAttached` | shm.c:467-483 | freeing a segment whose count is 0 disturbs no attachment, and there is none to it |
| `Shm.FirstWithKeyStarts` | shm.c:220-228 | the first entry with a key is the start of a segment |
| `Shm.AttachKeeps` | shm.c:154-176 | an attachment on free slots keeps slots, mappings and counts in agreement |
| `Shm.DetachKeeps` | shm.c:355-383 | a detachment does |
| `Shm.Shared.constructor` | shm.c:13-15 | an empty table and empty windows |
| `Shm.Shared.AllocShmSeg` | shm.c:81-151 | the segment goes to the lowest free run that is long enough, else after the last entry; no live entry changes; both errors exactly when they apply; the segment is as large as asked, rounded up to pages, and each page has an entry with a page of its own |
| `Shm.Shared.Shmget` | shm.c:212-262 | each combination of flags and found key: the first segment with the key, a new one, or the error, the errors of a creation exactly when they apply, and no live entry changes; a new segment is as large as asked, rounded up to pages |
| `Shm.Shared.Shmat` | shm.c:267-313 | the segment's pages are mapped at the lowest free run of slots, and every page counts one attachment more; each error exactly when it applies |
| `Shm.Shared.Shmdt` | shm.c:355-383 | the whole attachment is unmapped and every page of the segment counts one less; EINVAL exactly outside the window or when nothing is attached there |
| `Shm.Shared.Remove` | shm.c:505-517 | the pages of a segment go back exactly when nobody is attached; else it is marked and stays; a free entry is left alone |
| `Shm.Shared.RemoveShm` | shm.c:486-518 | by key the first segment with it, by identifier that entry; an unknown key or a free entry changes nothing |
| `Shm.Shared.FreePages` | shm.c:467-483 | the entries are free and the pages on the free list, each once |
| `Shm.TranslatedTwice` | shm.c:137 | applying V2P() twice gives the kernel address back, which is above physical memory |
| `Grep.MatchHere` | grep.c:85-96 | true exactly when the pattern's meaning holds at the start of the text |
| `Grep.MatchStar` | grep.c:99-106 | true exactly when some number of c's and then the rest of the pattern match |
| `Grep.Match` | grep.c:73-82 | true exactly when the pattern's meaning holds of the text, for every pattern and text |
| `Shell.Parser.GetToken` | sh.c:266-308 | the next token of the line |
| `Shell.LexWords` | sh.c:266-308 | every word token is a nonempty run of word characters that ends where the run does |
| `Shell.LexHas` | sh.c:265-308 | every run of word characters that is maximal on both sides is a token |
| `Shell.Parser.Peek` | sh.c:311-320 | whether the next token starts with one of the characters, consuming nothing |
| `Shell.Parser.ParseRedirs` | sh.c:375-397 | the redirections at this point, in order |
| `Shell.Parser.ParseBlock` | sh.c:400-413 | the block the grammar derives from the tokens ahead |
| `Shell.Parser.ParseExec` | sh.c:416-446 | the simple command or block the grammar derives |
| `Shell.Parser.ParsePipe` | sh.c:362-372 | the pipeline the grammar derives |
| `Shell.Parser.ParseLine` | sh.c:345-359 | the line the grammar derives; the descent ends on every input |
| `Shell.Parser.ParseCmd` | sh.c:328-340 | the command of the line, or the panic on a syntax error or leftovers |
| `Shell.LineSound` | sh.c:345-359 | what the descent consumes is what its derivation yields |
| `Shell.LineBack` | sh.c:345-359 | every derivation's tokens parse back to that derivation, so the grammar is unambiguous |
| `Shell.ParsesDerivations` | sh.c:328-342 | a line is accepted exactly when the grammar derives it, in one way |
| `Shell.NulTerminate` | sh.c:450-493 | a NUL at the end of every token of the command and nowhere else |
| `Shell.LineAll` | sh.c:344-446 | every word of an accepted line is an argument or a file name of its command |
| `Shell.LineInOrder` | sh.c:344-446 | in the command the arguments are in the order of the line, and what is left of a bar or ';' in the line is on the left |
| `Shell.LineNodes` | sh.c:344-446 | every '&', bar and ';' of the line makes one node of the command, and nothing else does |
| `Shell.RedirectionsTaken` | sh.c:374-397 | '<' opens its file for reading on descriptor 0, '>' and '>>' create theirs for writing on descriptor 1, and later redirections are outside |
| `Shell.CutReads` | sh.c:450-493 | no such NUL falls inside another token |
| `Shell.ParseAndCut` | sh.c:328-342 | for every line: accepted exactly when derivable, the tree of its one derivation, and afterwards every argument and file name reads as exactly its token; every maximal run of word characters of the line is among them; words are in order, and operators have one node each |

## Left out

- Hardware and boot (ide.c, lapic.c, ioapic.c, mp.c, trap.c, bootmain.c, assembly): iderw() is one atomic transfer of a block.
- Console, formatted output, the small user programs and the tests: input and output only.
- The calls of bread() and brelse() within fs.c: `Inodes` works on the latest contents of the blocks, which is what `BufferCache` proves bread() returns, and collects the blocks that log_write() is called on.
- Crash.LinkSurvives: with 1024 data blocks or more, only where the new count still fits in 16 bits.
- Crash.MakeSurvives: with 1024 data blocks or more, only where the new count still fits in 16 bits, and for arguments that are shorts.
- Crash.OpenSurvives: with 1024 data blocks or more, only where the inodes still fit in 16 bits.
- Crash.ChunkSurvives: only for inodes whose 16-bit fields do not overflow, and files without holes.
- Crash.EndsAtomically: the operation is the only one of its transaction; `RedoLog` is about transactions of several.
- Inodes.FileSys.Iupdate: the inode on disk is a record; its bytes are `InodeBlocks`, which `Crash` puts in the blocks.
- Paths.ICache.Ilock: the copying of the fields is left out, as the inode in memory is a record too.
- FileContents.Readi: not for device inodes, for which the source calls a driver.
- FileContents.Writei: not for device inodes, for which the source calls a driver.
- FileContents.WriteChunk: not for device inodes, for which the source calls a driver.
- FileContents.Filewrite: not for device inodes, for which the source calls a driver.
- Links.SysLink: from states with right counts only.
- Unlink.SysUnlink: from states with right counts only.
- Create.Create: from states with right counts only.
- Create.SysMake: from states with right counts only.
- The code of sys_open() around create(), sys_chdir() and the file table: dispatch only.
- Locks of inodes: the file system calls run one at a time; ilock() is its reading of the inode.
- The 16-bit width of nlink in the calls: counts are integers, and fit where `Capacity.LinksFit` says.
- Create.MakeRoot: does not round the root directory's size up to a block as mkfs does.
- Vm.Memory.Deallocuvm: oldsz is at most HEAPLIMIT, as in every call of it on a process; above that it would free pages of the shared-memory window.
- Vm.Memory.Mappages: the range is not empty and does not wrap, and below HEAPLIMIT it is one page, as in every call.
- Vm.Memory.Allocuvm: the pages to add are not present, as in every call; mappages() would panic otherwise.
- Vm.Memory.Kfree: the frame is one the caller holds; the panic on other addresses is not modelled.
- Vm.Memory.Clearmapping: only in the window for shared memory, as in every call.
- loaduvm(), inituvm(), copyout() and segment registers: easy members of vm.c.
- Shm.Shared.Shmat: only with no address given, since the overlap test for a given address runs over the wrong range (shm.c:330), and only for the first entry of a segment, since the code attaches past its end otherwise.
- Shm.Shared.Shmdt: only where an attachment begins; elsewhere the code unmaps past its end.
- Shm.Shared.Shmget: key -1 is the mark of a free entry, and kalloc() succeeds.
- Shm.Shared.RemoveShm: an identifier is one of the table, and not in the middle of a segment; others index past the entries of the segment or the table.
- Shm.Shared.AllocShmSeg: kalloc() succeeds; the clean-up after a failure does not follow the entries written (shm.c:68-78).
- Attachments across fork, exec and exit, IPC_SET, permissions, times and the counters of shm_info.
- Umalloc.Heap.Malloc: what follows when it goes wrong in morecore(), a fault or a free list past the break; addresses are counted in header units.
- Log.Log.BeginOp: the wait during a commit, which is in `LogReservation` only, as end_op() is one step of the class.
- Weak memory ordering and spinning: spinlocks are atomic steps.
- grep()'s input buffering, and runcmd() of the shell.
- Shell commands are values: the exec node is filled before it is wrapped in its redirections, where the source wraps first and fills it in place.
- Buffers, heap headers and table entries are records in arrays or maps instead of linked structs; the links are indices or addresses in them.
