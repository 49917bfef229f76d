# Verified models of the xv6 kernel core

This project models the hard parts of an xv6 kernel in Dafny and proves what they are for:

- the redo log, from single-sector disk writes and crashes (`LogCrash`, `LogHeader`) up through the in-memory
  disk (`MemIde`) and the buffer cache (`Bio`) to the code of log.c itself (`Log`), whole runs of it with crashes
  and restarts (`LogRun`), and the admission of concurrent operations to it (`LogAdmission`);
- the file system on top of it: the free-block bitmap (`Bitmap`), block maps and block ownership (`BlockMap`),
  allocation, truncation, reading and writing of inodes (`Fs`), chunked writes (`FileWrite`), the format
  of the disk (`DiskLayout`), what a crash in the middle of an operation leaves on it (`FsCrash`), whole runs with
  crashes and restarts (`FsRun`), the inode cache (`Icache`), directories (`Directory`) and path names (`Path`);
- the user-level allocator (`FreeList`, `Umalloc`);
- page frames and page tables (`PageMap`, `Vm`);
- sleep and wakeup (`SleepWakeup`), the process table (`Proc`, `ProcTree`), pipes (`Pipe`);
- the regular expression matcher of grep (`Grep`).

Code that updates things in place is modelled by classes whose methods are proved against specifications; code
whose point is its interleavings is modelled as a machine over its atomic steps, and the theorems are about every
run. A panic is an outcome, and its exact condition is part of the contract wherever a caller could want it.

## How the parts fit together

`LogCrash` knows only sector writes. Its theorems speak about every prefix of the write sequence of one commit
and of one recovery. `Log` is the code of log.c over the buffer cache and the disk: its `Commit` and
`RecoverFromLog` are proved to issue exactly those sequences (`CommitTrace`, `RecoverTrace`). `Log.CrashInCommit` and
`Log.CrashInRecovery` apply any prefix of the writes that were issued to the disk and say what recovery makes of it,
and `Log.RebootAfterCrash` starts a new cache and log on that disk and runs the recovery. `LogRun` strings whole
operations, crashes, interrupted recoveries and restarts together and proves that the home sectors are those of an
atomic store and the whole disk that of the run of `LogCrash` with the same crashes. `Bio` gives its clients a view of
the sectors (what readers see), the set of pinned sectors and the set of held ones, and proves that the linked list, the
buffers, the counters and the disk always agree with that view.

`Fs` keeps, beside the bitmap, the inodes and the blocks, specification fields: which block each place of each inode
names, who owns each block, the byte string of each file, the number of free blocks, and the list of the sectors
passed to log_write. Its invariant ties them to the bits and bytes. Every operation is then stated on byte strings,
on ownership and on the count of blocks it needs; `Directory` and `Path` use only that. `FileWrite` passes the list of
calls that one chunk made to the machine of `LogAdmission`. `Fs` also proves that every sector that differs from what
was on disk when the transaction began has been passed to log_write. `DiskLayout` lays bitmap, inodes and blocks out on
the home sectors, byte by byte as fs.h says, and reads them back: `FilesOn` follows inode blocks, addresses and indirect
blocks on the bare sectors, and `HasFiles` says that what is on them is a sound file system with given files, which are
then those of `FilesOn`. `FsCrash` runs an operation of `Fs` over a log of `LogRun`: after any crash the disk has the
files as they were before the operation or as they are after it, as the header write decides. `FsRun` starts a machine
on a disk, loads the file system from its sectors, and goes through any sequence of reads, writes and truncations with
crashes and restarts, loading it again each time: files and replies are those of a store that does each operation at
once or not at all.

Large invariants are folded: the body is guarded by a marker predicate `Unfold`, and a lemma opens it with
`assert Unfold(k)`. This keeps each proof small.

## What turned out not to hold

- The reservation made by begin_op is meant to keep log_write from ever panicking. For operations that do not call
  log_write at all once they have added MAXOPBLOCKS sectors, that holds exactly when the log region is larger than
  LOGSIZE blocks, or than MAXOPBLOCKS if there is only one process (`LogAdmission.AdmissionSuffices`, with the failing run
  in `LogAdmission.SmallLogPanics`); the image has LOGSIZE, one of which is the header. A full log also refuses a sector
  that it already holds. So for operations that add no more than MAXOPBLOCKS sectors but may write recorded ones again,
  it holds exactly when there is no process, or a single one and a region larger than MAXOPBLOCKS + 1
  (`LogAdmission.RewritingSuffices`, with the failing runs in `LogAdmission.FullLogRefusesAbsorption` and
  `LogAdmission.AloneRefused`).
- balloc searches all blocks below the size in the superblock, and the log lies at the end of them, unmarked. A write
  takes only blocks below the log exactly when no more are needed than are free there (`FsCrash.WriteHome`);
  `FsCrash.TakesLogBlock` is a write that takes a block of the log.
- log_write tests the room left before it takes the lock. Two processes can both pass with room for one sector, and
  then the header names more sectors than the region has blocks for (`LogAdmission.BothPass`). That cannot happen exactly
  when there is at most one process, or the region admits no sector at all, or it is larger than LOGSIZE
  (`LogAdmission.HeaderFits`).
- malloc's result has room for the request exactly when nbytes is at most 2^32 - 8 (`Umalloc.RoomFor`, failing in
  `Umalloc.RoomWraps`), and sbrk is asked for what morecore claims exactly when fewer than 2^28 units are
  (`Umalloc.SbrkExact`, failing in `Umalloc.SbrkWraps`).
- deallocuvm steps over an absent table from where it stands, not from the table's start. It unmaps its range exactly
  when no mapped page of the range lies in the part it jumps over (`Vm.SweepExact`); `Vm.SkipsMappedPage` is an address
  space in which a page stays mapped.
- allocuvm does not look at the result of mappages. It maps the whole range exactly when there are frames enough for
  pages and tables together (`Vm.GrowsExactly`). When they run out at the last page's table it returns the new size
  although that page is not mapped, as in `Vm.ReportsUnmappedPage`. It loses a frame for good exactly when the frames run
  out at a table, the page's own frame being the last one (`Vm.Leaks`, in the contract of `Vm.Vm.Allocuvm`).
- The comment at fs.c:129-133 says that iput clears I_VALID when the last reference goes. The step that drops the last
  reference leaves the entry valid exactly when it was valid and its inode has links (`Icache.LastReference`, with a run
  in `Icache.StaysValid`). iget clears the flags of an entry it recycles, which is what coherence rests on.

## Assumptions

- Home sectors lie outside the log region, and the header on disk is empty when a transaction starts.
- The image's blocks are named at most once, its files have no holes below their size, its directories have whole
  entries and name existing inodes.
- A process holds a lock on an inode only between ilock and iunlock, uses only references that it holds, and unlocks an
  inode only after iupdate; `Fs.Fs.Writei` and `Fs.Fs.Itrunc` are proved to keep the last part.
- Blocks given to free were returned by malloc and not freed since; sbrk answers with memory above all it gave before,
  in multiples of 8 bytes.

## Model

| member | source | states |
|---|---|---|
| LogCrash.UpdateUnique | log.c:68-81 | a disk that has the new block at each logged sector and the old one elsewhere is unique, so the transaction's effect is well defined |
| LogCrash.UpdateTwice | log.c:68-81 | installing a transaction over any part of itself gives the transaction: installing is idempotent |
| LogCrash.RecoverStep | log.c:114-121 | recovery moves from one disk to the next by single sector writes |
| LogCrash.RecoverPrefix | log.c:114-121 | stopping recovery after any of its writes keeps the log valid and what recovery would produce; finishing it produces that, with an empty log |
| LogCrash.RecoverWritten | log.c:114-121 | applying the first j writes of recovery to the disk gives its j-th disk: the list of writes and the sequence of disks are one thing |
| LogCrash.CommitStep | log.c:189-199 | commit moves from one disk to the next by single sector writes |
| LogCrash.CommitWritten | log.c:189-199 | applying the first k writes of commit to the disk gives its k-th disk |
| LogCrash.HeaderCommits | log.c:97-112 | the header write names the transaction and its blocks without touching a home sector: the commit point |
| LogCrash.CommitIsLogThenRecover | log.c:189-199 | from the commit point on, commit goes through the same disks as recovery |
| LogCrash.CommitPrefix | log.c:189-199 | after any prefix of commit's writes, recovery yields all old home sectors up to the header write and all new ones from it on |
| LogCrash.WriteAhead | log.c:174-199 | whenever commit is about to write a home sector, the header on disk names it and the log holds the very block to be written |
| LogCrash.CrashAtomicity | log.c:68-199 | a crash after any prefix of commit, any number of interrupted recoveries and a completed one leave the home sectors all old or all new |
| LogCrash.RunIsAtomic | log.c:68-199 | over any run of commits and crashes the home sectors equal those of a store that performs the surviving transactions atomically, in order |
| LogHeader.HeaderRoundTrip | log.c:83-112 | the sector list that write_head stores is the one read_head reads back, whatever the block held before |
| MemIde.MemDisk.Iderw | memide.c:33-58 | a dirty buffer is written to its sector, another is filled from it, and the panic conditions are exact |
| Bio.Bcache.constructor | bio.c:45-68 | binit: all buffers unused and linked, all counted free, readers see the disk |
| Bio.Bcache.LinkAll | bio.c:53-62 | the insertion loop yields one ring through next and prev that holds every buffer once, last inserted first |
| Bio.Bcache.FindCached | bio.c:84-99 | the forward scan finds the buffer that caches the sector, and ends at the head exactly when there is none |
| Bio.Bcache.FindRecyclable | bio.c:101-115 | the backward scan finds the least recently released buffer that is neither in use nor pinned, and ends at the head exactly when all are |
| Bio.Bcache.Bget | bio.c:73-117 | one pass of bget: which of hit, sleep, recycle and panic it is, the recycled buffer is the least recently released clean free one, counters and sets follow, the cache stays coherent |
| Bio.Bcache.Bread | bio.c:119-129 | the buffer handed out holds what readers of the sector see; it panics exactly when the sector does not exist or needs a buffer while all are in use or pinned; nothing is written |
| Bio.Bcache.Bwrite | bio.c:131-139 | a held buffer goes to its sector as one disk write and is no longer pinned; the panic condition is exact |
| Bio.Bcache.Brelse | bio.c:141-165 | the buffer is freed and moved to the front of the list, whose order is release order; readers see no change; the cache stays coherent if changed data was handed to bwrite or log_write; it panics exactly when the buffer is not held |
| Bio.Bcache.MoveToFront | bio.c:151-156 | the six pointer writes move one buffer to the front and keep the list one ring over all buffers |
| Bio.Bcache.UsedIsSectors | bio.c:101-105 | as many buffers are unavailable as there are sectors held or pinned: no two buffers hold one sector |
| Bio.Bcache.CleanView | bio.c:101-139 | a sector that is neither pinned nor held reads as it is on disk |
| Bio.Bcache.CleanCache | bio.c:101-139 | with nothing pinned and nothing held, readers see exactly the disk |
| Log.Log.constructor | log.c:53-65 | the log before recovery, in the region the superblock gives |
| Log.Log.CopyBlock | log.c:73-80 | one turn of either copying loop: destination gets what readers see at the source, as one disk write; the panic condition is exact |
| Log.Log.WriteLog | log.c:173-187 | the latest cached contents of the logged sectors go behind the header, in order; it fails exactly when no buffer is left |
| Log.Log.InstallTrans | log.c:67-81 | the logged blocks go home, in order, which unpins them |
| Log.Log.EncodeLoop | log.c:104-109 | the header block denotes exactly the logged sectors; stale entries behind them stay |
| Log.Log.WriteHead | log.c:97-112 | the header sector gets the logged sectors as one disk write |
| Log.Log.DecodeLoop | log.c:88-93 | the in-memory list becomes the one the header block denotes |
| Log.Log.ReadHead | log.c:83-95 | the in-memory list becomes the one on disk, nothing else changes |
| Log.Log.Commit | log.c:189-199 | the disk goes through the sector writes of one commit of what readers saw; the log is empty afterwards, readers see no change; it fails exactly when the log is not empty and no buffer is left |
| Log.Log.RecoverFromLog | log.c:114-121 | the disk goes through the sector writes of one recovery and the log ends valid and empty |
| Log.CrashInCommit | log.c:189-199 | after any prefix of the sector writes that a commit issued, recovery of the disk gives the old home sectors up to the header write and the new ones, as readers saw them, from it on |
| Log.CrashInRecovery | log.c:114-121 | after any prefix of the sector writes that a recovery issued, recovery still owes the same home sectors |
| Log.Reboot | log.c:52-65 | initlog on a machine that starts with any disk whose header is valid: the log is at rest, reads headers as write_head writes them, and the home sectors, on disk and for readers, are those recovery owes; the disk went through the sector writes of one recovery |
| Log.RebootAfterCrash | log.c:52-199 | commit, crash after any of its writes, restart: the new log starts with all old or all new home sectors |
| Log.Log.LogWrite | log.c:201-230 | the sector is recorded once and its buffer pinned, so that the logged sectors are exactly the pinned ones, without repeats; the panic conditions are exact; an operation that was promised a sector is refused only for want of log blocks |
| Log.Log.FindLogged | log.c:221-224 | the absorption scan finds the sector's position or the end |
| Log.Log.BeginOp | log.c:123-140 | an admitted operation is promised MAXOPBLOCKS sectors on top of what the open ones still have; recorded and promised sectors fit LOGSIZE at every moment, which log_write and end_op keep; it is admitted exactly when the reservation fits and nobody commits |
| Log.Log.EndOp | log.c:142-171 | nothing reaches the disk while other operations are open; the last one commits, after which the disk holds what readers see; the panic condition is exact |
| Log.Log.UpdateBlock | log.c:201-210 | the typical use: readers see the new block at once, the disk does not change, the log records it once; it sleeps exactly when the block is held, and panics on exact conditions |
| Log.Log.CommitHasBuffer | log.c:210-230 | with nothing held, the buffers in use are the logged blocks, so a log region of LOGSIZE blocks leaves one for commit |
| Log.PinnedCount | log.c:210-230 | a transaction pins as many buffers as it names sectors, fewer than NBUF in a region of LOGSIZE blocks |
| LogRun.Restart | log.c:52-121 | a machine started again after any number of recoveries cut short at any write ends with the home sectors that the first one owed, and its disk is that of the crash machine after the same attempts |
| LogRun.Operate | log.c:123-230 | begin_op, any updates, end_op, a crash after any sector write of the commit, interrupted recoveries and the restart: the home sectors have all the updates or none, as the header write decides; the disk takes one step of the crash machine, with that crash and those recoveries; small operations never panic |
| LogRun.Perform | log.c:52-230 | any sequence of such operations on any valid disk: the home sectors, on disk and for readers, are those of a store that performs the surviving operations atomically, in order, and the whole disk is that of the run of the crash machine with the same transactions, crashes and cut recoveries |
| LogAdmission.RunInv | log.c:123-230 | in every run within budgets, log_write's test and its critical section being two steps: committing excludes open operations; between transactions the header is empty; sectors plus unused budgets stay within LOGSIZE; no sleeper is without an open operation or committer |
| LogAdmission.AdmissionSuffices | log.c:123-140 | for any number of processes, operations that stop calling log_write once their budget is used up never panic in any run if and only if the log region is larger than LOGSIZE, or MAXOPBLOCKS for one process |
| LogAdmission.SmallLogPanics | log.c:210-218 | a run of two processes within budget that panics in any region of LOGSIZE blocks or fewer |
| LogAdmission.BothPass | log.c:215-227 | a run in which two processes pass the test with room for one sector and the header then names one sector more than the region has log blocks |
| LogAdmission.HeaderFits | log.c:215-227 | the header stays within the region in every run if and only if there is at most one process, or the region admits no sector, or it is larger than LOGSIZE |
| LogAdmission.FullLogRefusesAbsorption | log.c:215-223 | a run within budget that panics on a sector the full log already holds, in a region of any size |
| LogAdmission.AloneRefused | log.c:215-223 | the same for a single process, in a region of MAXOPBLOCKS + 1 blocks or fewer |
| LogAdmission.RewritingSuffices | log.c:123-227 | operations that stay within budget but may write recorded sectors again never panic in any run if and only if there is no process, or one and a region larger than MAXOPBLOCKS + 1 |
| LogAdmission.LoneOperation | log.c:210-230 | an operation alone in its transaction that writes fewer distinct sectors than the log holds never panics, in any order and with any repetition, and records each sector once |
| LogAdmission.CanEnter | log.c:123-171 | from every reachable state a process waiting in begin_op is let in once those inside finish: never stuck |
| SleepWakeup.NoLostWakeup | proc.c:350-405 | in every interleaving, a process asleep while its condition holds implies that the setter still holds the lock and has its wakeup ahead |
| SleepWakeup.NoDeadlock | proc.c:350-405 | while some process is neither idle nor asleep, some process already under way can take a step: the two locks never block everyone |
| SleepWakeup.WakeupArrives | proc.c:386-405 | a pending wakeup arrives: finitely many steps, each taken by a process that holds one of the two locks or by the scheduler releasing one, make the sleeper runnable |
| Proc.HandedAt | proc.c:199-206 | the loop of exit turns exactly the exiting process's children over to init, changes no pid, channel or mark, and leaves nobody asleep on init once it met a zombie |
| Proc.ExitedAt | proc.c:194-210 | exit's effect on every slot: its parent is awake, its children are init's, and if one was a zombie nobody sleeps on init |
| Proc.Table.Wakeup1 | proc.c:386-396 | every process sleeping on the channel becomes runnable and no other slot changes |
| Proc.Table.Exit | proc.c:172-212 | the table changes as specified, and init's exit is refused |
| Proc.Table.Wait | proc.c:216-255 | the first zombie child is collected; else -1 without children or when killed; else asleep on itself |
| Proc.Table.Claim | proc.c:41-49 | allocproc takes the first unused slot, or finds none |
| Proc.Table.Kill | proc.c:410-428 | the first slot with the pid is marked and woken if asleep, or there is none |
| ProcTree.NoOrphans | proc.c:128-255 | in every run, a started process other than init, and a zombie, has a parent that is itself alive |
| ProcTree.ReapedOnce | proc.c:128-255 | in every run, no exit is collected twice, each is collected by a wait of the process that is its parent at that moment, and the exits are exactly the collected processes and the zombies in the table |
| ProcTree.ZombieIsCollected | proc.c:188-255 | in every run, a zombie's parent is alive, not asleep in wait, and its next wait collects a child |
| ProcTree.WaitDecides | proc.c:222-250 | wait's scan has exactly one outcome for every table |
| ProcTree.RunsAreGood | proc.c:128-428 | the invariant behind these over every interleaving of fork, exit, wait, kill, sleep, wakeup and scheduling |
| Bitmap.FindFree | fs.c:61-74 | the scan over bytes and bits finds the lowest free block, or shows that there is none |
| Bitmap.MarksSet | fs.c:64-66 | setting a bit marks that block and no other |
| Bitmap.MarksCleared | fs.c:88-92 | clearing a bit frees that block and no other |
| BlockMap.NamedOnce | fs.c:359-387 | a named block is marked, not reserved, and named at one place of one inode only |
| BlockMap.EntriesPut | fs.c:377-380 | storing an entry of the indirect block changes that entry only |
| BlockMap.SpellsOne | fs.c:437-461 | a block map spells one byte string of each length |
| BlockMap.SpellsWrite | fs.c:482-486 | patching the block that holds an offset writes there and nowhere else in the file |
| BlockMap.SpliceTwice | fs.c:482-488 | writing two adjacent pieces one after the other is writing their concatenation |
| Fs.Fs.constructor | fs.c:52-76 | an empty file system satisfies the invariant |
| Fs.Fs.Balloc | fs.c:51-76 | the lowest free block is returned, marked and zeroed, and one block fewer is free; it panics exactly when none was free |
| Fs.Fs.Bfree | fs.c:78-95 | the block's mark is cleared and no other; it panics exactly when the block is free |
| Fs.Fs.Bmap | fs.c:357-387 | returns the block named for that part of the file, allocating at most it and the indirect block; no file changes, no name is lost, nothing changes if it was there; panics exactly out of range or when fewer blocks were free than the none, one or two it needs |
| Fs.Fs.Itrunc | fs.c:389-422 | frees exactly the blocks the inode named, never reaching "freeing free block"; the file is empty, all others are unchanged, disk and memory inodes agree |
| Fs.Fs.Readi | fs.c:435-461 | returns exactly the clamped slice of the file, or the errors on exactly their conditions including 32-bit overflow, and changes nothing: bmap allocates nothing |
| Fs.Fs.Writei | fs.c:463-495 | the file becomes c[..off] + src + c[off+n..]; all other files and inodes are unchanged; ownership, no holes, and agreement of disk and memory inodes are kept though iupdate runs only on growth; a write that is not refused panics exactly when fewer blocks are free than it needs, indirect block included; the sectors logged are bounded |
| Fs.FilesWrite | fs.c:482-487 | writing into a block of one file changes no other file |
| FileWrite.ChunkSectors | file.c:126-137 | a chunk's writei logs at most 14 data blocks, an indirect block, an inode block and the bitmap blocks |
| FileWrite.FewSectorsFit | log.c:210-230 | calls of log_write on fewer sectors than the log holds never reach "too big a transaction", whatever the numbering of the sectors and whatever state an operation alone in its transaction starts in |
| FileWrite.Chunk | file.c:126-144 | one transaction of filewrite: the piece goes to the offset; the calls of log_write that it made concern at most 16 sectors and the bitmap and, in the order made, never reach "too big a transaction" in a log region of LOGSIZE blocks with up to 12 bitmap blocks |
| FileWrite.Filewrite | file.c:114-155 | on success all bytes are in the file at the old offset, which advances; on failure a prefix is; a write that is not refused succeeds exactly when there are blocks enough for the whole of it, over all chunks; "short filewrite" is never reached |
| DiskLayout.InodeRoundTrip | fs.c:203-218 | what iupdate stores of an inode in its place of an inode block, as 16 words with the short fields in pairs, ilock reads back, negative values included |
| DiskLayout.RowRoundTrip | fs.h:42-46 | the bits of a bitmap block survive being stored as bytes |
| DiskLayout.LoadedImage | fs.h:4-46 | bitmap, inodes and blocks stored in their sectors are read back from them |
| DiskLayout.SectorKept | fs.h:38-46 | a sector of the disk that was not passed to log_write is as it was when the transaction began |
| DiskLayout.ByteHeld | fs.c:359-388 | in a sound file system the byte at any offset of a file is where its inode and its indirect block on disk say |
| DiskLayout.HeldFiles | fs.c:270-297 | sectors that have a sound file system with these files have no others: they are what following inode blocks, addresses and indirect blocks on the sectors gives |
| Fs.Fs.Load | fs.c:270-297 | the file system made from what is on disk is that one, with the invariant |
| FsCrash.ImageChanged | fs.h:38-46 | making the changes of the calls of log_write turns the disk as it was into the disk as it is |
| FsCrash.TouchedCount | fs.h:38-46 | a transaction touches as many sectors as were passed to log_write: no two have the same number |
| FsCrash.StaysBelow | fs.c:51-76 | taking the lowest free blocks stays below a limit if and only if no more are taken than were free below it |
| FsCrash.WriteHome | fs.c:463-495 | writei takes blocks of the log if and only if it needs more than are free below it; otherwise all its calls of log_write are on home sectors |
| FsCrash.TakesLogBlock | fs.c:51-76 | a write on an empty disk after which a block of the log is marked |
| FsCrash.LaidHolds | fs.h:4-46 | the sectors of a file system that lies below the log have that file system and its files on them |
| FsCrash.Record | log.c:123-230 | after the calls of log_write of an operation, its commit, a crash at any write and the restart, the home sectors are those after the operation if the crash came after more writes than sectors were passed to log_write, and those before it otherwise |
| FsCrash.WriteThrough | fs.c:463-495 | one writei over the log, crash and restart included: the disk has a sound file system in which that file has all of the bytes if the machine got past the header write and is as it was otherwise, and every other file is as it was; it lacks room if and only if it needs more blocks than are free below the log; a chunk of filewrite never fills the log |
| FsCrash.TruncHome | fs.c:389-422 | itrunc passes only home sectors to log_write, at most the bitmap and one inode block, and keeps the log's blocks unmarked |
| FsCrash.TruncThrough | fs.c:389-422 | one itrunc over the log, crash and restart included: the disk has a sound file system in which that file is empty if the machine got past the header write and is as it was otherwise, and every other file is as it was |
| FsRun.Format | mkfs.c:85-105 | a disk with an empty file system and an empty log meets what a run starts from |
| FsRun.Mount | fs.c:270-297 | the file system loaded from the sectors of a log at rest is the one that was stored on them, in the same blocks |
| FsRun.Step | fs.c:389-495 | one readi, writei or itrunc with its crash, interrupted recoveries, restart and loading: the files are those of the atomic store, the reply too, and the number of sectors recorded is bounded |
| FsRun.Perform | fs.c:389-495 | from any disk with a sound file system, any sequence of reads, writes and truncations with crashes after any sector write of commits and recoveries: files in memory, files on disk and all replies are those of a store that does each operation at once, or not at all if its crash came before the header write; it stops early only before a write that needs more blocks than are free below the log, if the operations are chunks in a log of full size |
| Icache.CacheCoherence | fs.c:159-339 | in every run, an inode number has at most one referenced entry, and a referenced, valid, unlocked entry equals its disk inode, which is allocated |
| Icache.NoBusyPanic | fs.c:320-329 | in every run the only panics are running out of entries and locking a free inode; "iput busy" is never reached |
| Icache.OnlyHolderWrites | fs.c:176-339 | in every run, an allocated disk inode is changed only by the process that has it locked or is freeing it through its last reference |
| Icache.ReuseWindow | fs.c:320-339 | when ialloc reuses the number while iput is still freeing it, then in every continuation the new inode stays as it is until it is read, no entry passes for it, and the first ilock that reads it gets it |
| Icache.LastReference | fs.c:320-339 | in every run, the step that drops the last reference leaves the entry valid if and only if it was valid and its inode has links |
| Icache.StaysValid | fs.c:320-339 | a run after which an entry that nobody refers to is valid |
| Icache.Cache.Iget | fs.c:220-254 | finds the entry that refers to the number, else recycles the first unreferenced one with its flags cleared, else panics |
| Icache.Cache.Ialloc | fs.c:176-199 | allocates the lowest free inode number from 1, or panics |
| Directory.Namecmp | fs.c:500-504 | strncmp over 14 bytes is equality of the cut name with the stored one |
| Directory.EntryRoundTrip | fs.c:565-566 | an entry reads back as the name cut to 14 bytes and the inode number cut to 16 bits |
| Directory.ListingWrite | fs.c:565-568 | writing an entry replaces or appends that entry and no other |
| Directory.LinkExtends | fs.c:543-571 | adding an absent name over a dead entry or at the end extends the directory's map by it and creates no second live entry |
| Directory.Dirlookup | fs.c:506-541 | finds the first live entry of the cut name, which is what the directory's map gives; reports absence exactly; changes nothing |
| Directory.FindSlot | fs.c:557-563 | the first dead entry, or the end |
| Directory.Dirlink | fs.c:543-571 | the directory's map gains the cut name, or the call fails because it is there, changing nothing; no second live entry; no other file and no inode's type changes; it panics exactly on what is no directory, on a partial entry, or when no entry is dead and the file cannot grow by one |
| Path.ElementsJoin | fs.c:576-611 | the elements of a/b are those of a followed by those of b |
| Path.ElementsWord | fs.c:598-607 | a word without slashes is its own single element, cut to 14 bytes |
| Path.Skipelem | fs.c:576-611 | yields the first element and the rest; fails exactly when there are no elements; the rest is empty exactly when it was the last |
| Path.WalkLast | fs.c:613-650 | resolving a path is resolving its parent and one more lookup |
| Path.Link | fs.c:543-571 | after dirlink of an existing inode number every directory still names existing inodes and none twice by one name, and the new name leads to that inode |
| Path.Walker.Namex | fs.c:613-650 | equals folding the directory maps over the path's elements (all but the last for the parent); terminates; no inode stays locked; one extra reference on success, none on failure; the last element is in name |
| FreeList.OneBlockEach | umalloc.c:24-90 | every unit got from sbrk is in exactly one block, free or live |
| FreeList.InsertFree | umalloc.c:37-42 | a freed block takes its place in address order; blocks stay disjoint and units are conserved |
| FreeList.MergeFree | umalloc.c:33-41 | merging two touching free blocks keeps disjointness and conservation, and removes that contact |
| FreeList.TakeWhole | umalloc.c:76-77 | a whole free block becomes live: disjointness and conservation are kept |
| FreeList.TakeTail | umalloc.c:78-82 | the tail of a free block becomes live: disjointness and conservation are kept |
| FreeList.GrantRegion | umalloc.c:54-58 | memory from sbrk joins the heap as a block of its own |
| Umalloc.Heap.constructor | umalloc.c:21-22 | the heap before the first call |
| Umalloc.Heap.FindPlace | umalloc.c:29-32 | the search loop ends, wherever it starts, at the free block after which the block belongs |
| Umalloc.Heap.Free | umalloc.c:24-44 | the block leaves the live ones; the ring stays one, ascending, with no two free blocks touching; units are conserved; some free block contains it |
| Umalloc.Heap.Morecore | umalloc.c:46-61 | the free list gains the new region; null exactly when sbrk fails, and sbrk is asked for a wrong amount exactly from 2^28 units on |
| Umalloc.Heap.Malloc | umalloc.c:63-90 | a new live block of the needed units, disjoint from all others; morecore is called exactly when no free block fits, and at most once, also when the new region merges into the block at freep; null exactly when sbrk then fails; it terminates |
| Umalloc.RoomFor | umalloc.c:69-69 | the block has room for nbytes if and only if nbytes is at most 2^32 - 8 |
| Umalloc.RoomWraps | umalloc.c:69-69 | the largest request gets one unit, a bare header |
| Umalloc.SbrkExact | umalloc.c:52-54 | sbrk is asked for the units claimed if and only if they are fewer than 2^28 |
| Umalloc.SbrkWraps | umalloc.c:52-54 | a request for which sbrk is asked for a negative amount |
| Vm.Vm.constructor | kalloc.c:45-52 | after freerange every frame of the pool is on the free list; one becomes an empty page directory |
| Vm.Vm.Kalloc | kalloc.c:79-95 | takes the head of the free list, none exactly when it is empty |
| Vm.Vm.Kfree | kalloc.c:54-77 | a frame that nobody owns becomes free and nothing else changes hands; frames stay owned once; frames outside the pool are refused |
| Vm.Vm.Walkpgdir | vm.c:42-65 | the table for the page, made from a zeroed frame if asked and possible; no user page is touched; null exactly otherwise |
| Vm.Vm.Mappage | vm.c:80-84 | one turn of mappages: maps one page, leaving all other translations; no memory and remap on exactly their conditions |
| Vm.Vm.Mappages | vm.c:67-90 | maps a run of pages to a run of frames, in order; stopped at page k, exactly the k pages before it are mapped, and k is mapped already or its table found no frame |
| Vm.Vm.Deallocuvm | vm.c:245-273 | unmaps the mapped pages of the range that are not jumped over and frees exactly their frames; no panic |
| Vm.SweepExact | vm.c:258-271 | the range ends unmapped if and only if no mapped page in it is jumped over |
| Vm.NoneMissed | vm.c:258-262 | nothing is jumped over if the first page's table is there or the first page starts a table |
| Vm.SkipsMappedPage | vm.c:245-273 | an address space and a call of deallocuvm after which a page of the range is still mapped |
| Vm.FreedExactly | vm.c:263-269 | the frame of a page that was mapped is on the free list if and only if the page was unmapped |
| Vm.Vm.Freevm | vm.c:275-292 | every frame the address space owned, pages, tables and directory, is on the free list, each once, and no other changed hands |
| Vm.Vm.Allocuvm | vm.c:218-243 | with frames enough the range is mapped to fresh zeroed frames and all other translations stay; without, 0 and the range is unmapped again, or the exact exception of the last page's table; one frame ends up with nobody exactly when the frames run out at a table |
| Vm.GrowsExactly | vm.c:232-242 | every page of the range is mapped if and only if the free frames suffice for pages and tables |
| Vm.ReportsUnmappedPage | vm.c:218-243 | an address space and a call of allocuvm that returns the new size with the page unmapped and a frame lost |
| Pipe.Pipe.constructor | pipe.c:32-35 | a new pipe is empty and open at both ends |
| Pipe.Pipe.Buffered | pipe.c:84-105 | the wrapping difference of the counters is the number of buffered bytes, at most PIPESIZE; the full and empty tests are exact |
| Pipe.Pipe.Pipewrite | pipe.c:77-97 | appends the bytes up to the end or until full; sleeps or fails only when full, and which of them exactly |
| Pipe.Pipe.Piperead | pipe.c:99-120 | returns the next bytes in order, fewer than asked only if the pipe is drained; sleeps or fails exactly when empty with the write end open |
| Pipe.FirstInFirstOut | pipe.c:77-120 | for the bounded queue that a pipe is: over any sequence of writes, reads and closes, what was in it followed by all bytes accepted is all bytes handed out followed by what is left, at most PIPESIZE |
| Pipe.Pipe.Perform | pipe.c:58-120 | one stretch of pipewrite, piperead or pipeclose on the ring buffer answers as the queue does and leaves what the queue holds |
| Pipe.Pipe.Interleave | pipe.c:58-120 | over any interleaving of writes, reads and closes, partial and failed ones included, every answer and the final contents are those of the queue, and the bytes stored and fetched are the ones in the answers |
| Grep.HereOne | grep.c:92-94 | an ordinary character consumes one matching character and goes on |
| Grep.HereStar | grep.c:97-105 | a starred character consumes any number of matching characters and goes on |
| Grep.Matchhere | grep.c:83-95 | true exactly when a prefix of the text is in the pattern's language, all of it under a final $ |
| Grep.Matchstar | grep.c:97-105 | true exactly when after some run of matching characters the rest matches |
| Grep.Match | grep.c:71-81 | true exactly when some part of the text is in the pattern's language, at the start under ^ and at the end under $ |

## Left out

- ide.c, console.c, uart.c and the other drivers: port input and output; memide.c is the disk of this model.
- trap.c, syscall.c, sysfile.c, sysproc.c, exec.c: argument fetching and glue over the parts modelled here.
- procfs.c, lsof.c and device inodes: a read, write, lookup or walk that reaches a device ends in an outcome of its own; whether a device is a directory is a parameter.
- mkfs.c: `FsRun.Format` is an empty disk; that an image with files on it meets the invariants is a hypothesis on the initial state.
- spinlock.c and context switching: locks are atomic steps.
- The cache lock and the log lock inside one call of the methods of `Bio` and `Log`: each method is one critical section or one call of commit, and the interleavings of calls are the subject of `LogAdmission` and `SleepWakeup`.
- `Fs`, `FileWrite`, `Directory`, `Path`: operations run one at a time, as the inode locks make them; other processes' changes between two chunks of filewrite or two elements of a path are not modelled.
- Path.Walker.Namex: iput only counts references here; freeing an unlinked inode is modelled in `Icache`, and sleeping in ilock there too.
- Icache.CacheCoherence: sizes and addresses are one opaque value, since the cache copies them whole; `Fs` models them.
- Vm.Vm.Mappages: pages and frames are whole; the kernel mappings of setupkvm, whose frames are outside the pool, are not modelled.
- Log.Log.CopyBlock: a log or home buffer that another process holds, on which bread would sleep, is excluded.
- Log.Log.WriteLog: a logged buffer that a reader holds, on which bread would sleep, is excluded.
- Log.Log.InstallTrans: a logged buffer that a reader holds, on which bread would sleep, is excluded.
- Log.Log.WriteHead: the header buffer held by another process, on which bread would sleep, is excluded.
- Log.Log.Commit: sleeping in the middle of a commit on a buffer that a reader holds is not modelled; `Undisturbed` excludes it.
- Log.Log.EndOp: the same for the commit of the last operation.
- FsCrash.Record: the contents recorded are those at the end of the operation, which is what commit copies.
- FsRun.Perform: operations run one at a time, each in a transaction of its own; bytes of the last inode block that belong to no inode are zero, as mkfs leaves them; the numbers of blocks and inodes are parameters and not read from the superblock.
- FsCrash.WriteThrough: what log_write does when it is passed a block of the log itself is not modelled.
- copyuvm, copyout, loaduvm, inituvm: they would add easy members over the same page tables.
- ProcTree.ReapedOnce: process identifiers are unbounded, so their wrap after 2^31 forks is not modelled.
- Proc.Table.Exit: closing files and the working directory before the table is locked is not modelled.
- Pipe: wakeups are not modelled beside the buffer; `SleepWakeup` proves the pattern that they follow.
- Umalloc.Heap.Morecore: an answer of sbrk that is not a multiple of 8 bytes is not modelled.
- Umalloc.Heap.Malloc: what happens after sbrk is asked for a wrong amount (the outcome Overrun) is not modelled.
- grep.c's line buffer, sh.c, cat.c, wc.c, ls.c and the other user programs: input and output loops.
- usertests.c, stressfs.c, forktest.c: tests.
