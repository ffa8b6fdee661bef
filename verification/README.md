# Three Linux drivers, modelled and proved

A Dafny 4.11 model of the stateful drivers of this collection of kernel modules, with proofs of what
they keep over whole runs.  `dafny verify dfyconfig.toml` checks everything.

**expfs, the in-memory filesystem.**  `Expfs.dfy` holds the block table as objects: the first-fit
allocator, the entry scan, the shift loop that closes the gap of a deleted entry, and create, unlink,
rmdir and rename, with rename's two directories possibly the same block.  Every method is proved equal
to one atomic step on a plain table (`BlockTable.dfy`).  About those steps: a directory refines a finite
map (`Directory.dfy`), path resolution of any length and the tree invariant (`PathTree.dfy`), and runs
from a fresh mount (`ExpfsRuns.dfy`): the tree is kept, rename relocates a whole subtree, deletion undoes
creation, and the block counter is accounted for.  `ExpfsLimits.dfy` has runs that use a mount up;
`ExpfsFiles.dfy` adds open files, which outlive the unlink of what they opened.  `FileData.dfy` is read, write and seek on one file.
MAX_FILE, BUFFER_SIZE and the number of entries a buffer holds are parameters.

**globalfifo, the blocking FIFO.**  `FifoDevice.dfy` has the buffer on a real array, with the overlapping
memcpy as an ascending byte loop.  `FifoProtocol.dfy` is the protocol as a transition system: any number
of threads, one semaphore, two wait queues, sleep, signal exits, non-blocking mode, clear and poll, one
step per statement another thread can observe.  Then: semaphore discipline and FIFO order over every
interleaving (`FifoSafety.dfy`), wake-ups (`FifoWakeups.dfy`), what reads and polls may promise
(`FifoReads.dfy`), runs that show what is not promised and the exact agreements under which it holds
(`FifoWitness.dfy`), and the complete transfer of a message (`FifoTransfer.dfy`).

**sbull, the block device.**  `Sbull.dfy` has the scatter/gather loop on arrays against one flat splice;
`SbullSectors.dfy` has capacity, sectors, and the scale from sectors to bytes as a parameter.

## What the proofs say about the code

Some expectations are false of the code.  The code is modelled as it is, with the exact condition.

- `usedBlks` is never decremented: a mount creates at most MAX_FILE - 1 blocks in its lifetime, and a create
  returns EINVAL exactly when that many were created (or the mode is invalid), whatever was deleted
  (`LifetimeBudget`).  For every MAX_FILE of at least 3, a run ends with every block free and every create
  failing (`BudgetRunsOut`).
- The guard on `usedBlks` lets `getblock` fail in exactly one kind of state (`GuardMissesExactlyFull`): nothing
  ever deleted and all blocks taken.  A chain of directories reaches it for every MAX_FILE (`TableRunsOut`).
- An open file keeps its block after an unlink, when the block may belong to something else, and a write through
  it stores its size there.  The tree is kept over all sessions exactly when no write goes through an unlinked
  file, or nothing can be created at all (`TreeNeedsLiveWrites`); with such a write, create, open, unlink,
  mkdir and write break it for every MAX_FILE of at least 3 (`StaleWriteBreaksTree`).
- `expfs_read` ignores the position when it copies, so reading in chunks gives the file's contents exactly
  when one chunk covers the file (`ChunkedReadExact`).
- The emptiness test of a read is not repeated after the sleep, so a blocking read can return 0.  For every
  buffer size and number of threads it cannot, in any run, exactly when nobody reads, or there is one thread,
  or one thread reads and nobody clears (`ReadsGetBytesExactly`).  What a poll promises about the next read holds
  exactly when nobody reads, or one thread reads and nobody clears (`PollPromiseExactly`).
- FIFO_CLEAR wakes nobody: it can leave a writer asleep on an empty buffer.  For every buffer size, writers sleep
  on a full buffer only, in all runs, exactly when nobody clears or there is one thread
  (`WritersWokenExactly`).  A reader can then fall asleep beside it, for ever: no run gets stuck that way exactly
  when nobody clears, nobody reads, or there is one thread (`DeadlockNeedsClear`).
- `do_simple_request` takes the sector number for a byte position: at that scale neighbouring sectors
  overlap; sectors are isolated exactly when the scale is at least 512 (`IsolationExactly`).
- The device size is an `unsigned int` product.  With 2^23 + 1 sectors of 512 bytes it wraps to 512 while the
  capacity does not (`CapacityOverflows`).  On a device that is set up, requests inside the capacity are copied in
  full exactly when the capacity in bytes is within the size (`NeverClampedExactly`), and none escapes the
  array exactly when the last sector starts within the device (`StartsInsideExactly`).

## Modelling choices

- Each expfs operation and each file call is one atomic step.  What the VFS guarantees is a precondition
  (`CanCreate`, `CanUnlink`, `CanRmdir`, `CanRename`): the name of a create or rename target is absent, the
  name of an unlink, rmdir or rename source is present, an unlink victim is not a directory, a rename
  destination is neither the moved block nor below it.
- The VFS does not guarantee that an open file still exists.  `ExpfsRuns` has the write of a size to any block
  that is no directory at the time; `ExpfsFiles` has the open files, and says when this is so.
- Where the code writes outside the table or the entries it is modelled up to that point, as an outcome of its
  own: `OutOfTable` when `getblock` fails, `OutOfBuffer` when the parent has no free entry slot or the name
  does not fit its 50 bytes (expfs/expfs.c:261-285 and 422-425 test neither), `Escaped` for a block request
  that starts beyond the device (sbull/sbull.c:161-162).  A run ends before such a step.
- `filesize` and `dir_children` are one field, `count`.  The buffer is typed: a directory block shows
  entries, a file shows bytes.
- A failing inode allocation is the input `inodeOk`, a failing vmalloc the input `memOk`; an allocation of
  size 0 fails, so a device whose size wraps to 0 is not set up.  A faulting user copy, in either direction, is
  an input as well; what it leaves in the target range is an arbitrary byte string.
- Int products wrap at 32 bits; a negative capacity converts to a large 64-bit one.
- A write's length is truncated to 32 bits before it is used, as the code does.
- `wake_up_interruptible` makes every interruptible waiter of its queue runnable; `remove_wait_queue` unlinks
  the entry from the queue it is on (a read names the write queue there, globalfifo/globalfifo.c:183).  A
  signal stays pending until the thread is back in user space.  Lines 183-186 and 249-252 are one step.
- A copy of zero bytes cannot fault.
- One source loop serves both directions of an sbull request; its direction is fixed per request, so it is
  split into `WriteRequest` and `ReadRequest` (and `_queue_rq` into `QueueWrite` and `QueueRead`).

## Model

| member | source | states |
|---|---|---|
| Directory.FindMeaning | expfs/expfs.c:305-313 | with unique names, a lookup returns an index if and only if the list has that name with that index |
| Directory.EraseAt | expfs/expfs.c:353-356 | after an erasure, entries before the erased one keep their place, later ones move down by one, and the name is gone |
| Directory.EraseLength | expfs/expfs.c:356 | the list is one shorter if and only if the name was there |
| Directory.FindAfterErase | expfs/expfs.c:382-390 | deleting a name keeps names unique and removes that name, and only that one, from lookup |
| Directory.FindAfterAppend | expfs/expfs.c:281-285 | storing an entry under an absent name keeps names unique and adds that name, and only that one, to lookup |
| Directory.EraseAfterAppend | expfs/expfs.c:281-285 | deleting the entry that was just stored restores the entry list, order included |
| Directory.EraseRefinesMap | expfs/expfs.c:351-359 | find-and-shift is exact removal from the directory's finite map |
| Directory.AppendRefinesMap | expfs/expfs.c:281-285 | storing an entry is insertion into the directory's finite map |
| BlockTable.FirstFree | expfs/expfs.c:56-67 | the result is free and every earlier block is used; -1 only when all are used |
| BlockTable.CreateOutcome | expfs/expfs.c:244-285 | when a create ends in EINVAL, in ENOMEM, outside the table, outside the entries, or well, each if and only if; the errors change nothing |
| BlockTable.CreateEffect | expfs/expfs.c:261-285 | a successful create takes the least free block over: in use, with the given mode, its own number as index and size 0 unless it is a symbolic link; the entry goes behind the parent's last one; the counter rises by one and nothing else changes |
| BlockTable.UnlinkEffect | expfs/expfs.c:382-391 | an unlink clears the victim's used flag and nothing else of it, its size stays; the parent loses the entry and no other block changes |
| BlockTable.RmdirEffect | expfs/expfs.c:347-367 | the same for a directory without entries; otherwise ENOTEMPTY and no change at all |
| BlockTable.RenameEffect | expfs/expfs.c:410-425 | the entry leaves the old parent and one with the same index goes behind the last of the new parent, which may be the same block and then has room exactly after the erasure; no header and no other block changes |
| BlockTable.DoResize | expfs/expfs.c:191 | the size lands in the union field of that block, and nothing else changes |
| BlockTable.CreateEdits | expfs/expfs.c:261-285 | after a create, lookup differs from before in one place: the new name gives the least free block |
| BlockTable.UnlinkEdits | expfs/expfs.c:382-391 | after an unlink, lookup differs in one place: the name is gone |
| BlockTable.RmdirEdits | expfs/expfs.c:347-359 | after an rmdir of an empty directory, lookup differs in one place: the name is gone |
| BlockTable.RenameEdits | expfs/expfs.c:410-425 | after a rename, for one or two directory blocks, the new name gives what the old one gave, the old one is gone, all other lookups and the used blocks are as before |
| BlockTable.RenameRefinesOneMap | expfs/expfs.c:410-425 | when both directories are one block, a full one included, its map loses the old name and gains the new one with the same index, and no other block changes; it fails to fit only for a name of 50 bytes or more |
| BlockTable.RenameRefinesTwoMaps | expfs/expfs.c:410-425 | with two blocks, one map loses the old name and the other gains the new one with the same index, and no other block changes, exactly when the new parent has a free slot and the name fits |
| PathTree.UniquePath | expfs/expfs.c:295-315 | two paths from the root that resolve to one block are the same path |
| PathTree.NoCycle | expfs/expfs.c:295-315 | no nonempty path leads from a used block to itself |
| PathTree.NamedOnce | expfs/expfs.c:281-285 | under the invariant each used block from 2 up is named by exactly one entry of one used directory |
| PathTree.EntriesPointToUsed | expfs/expfs.c:281-285 | under the invariant every entry of a used directory points to a used block from 2 up |
| PathTree.ParentLinksReachRoot | expfs/expfs.c:281-285 | the parent links of every used block reach block 1, in exactly one number of steps |
| PathTree.AddedPath | expfs/expfs.c:281-285 | one added entry for an unnamed empty block adds one path and changes no other |
| PathTree.RemovedPath | expfs/expfs.c:382-390 | removing the one entry of a childless block drops one path and changes no other |
| PathTree.RelocatedPath | expfs/expfs.c:410-425 | every path after a move, given by a path of the old table: relocated, gone, or the same |
| ExpfsRuns.CreateAddsOnePath | expfs/expfs.c:236-293 | a successful create adds one path, to the least free block, and changes no other path |
| ExpfsRuns.UnlinkDropsOnePath | expfs/expfs.c:373-394 | an unlink drops one path and changes no other |
| ExpfsRuns.RmdirDropsOnePath | expfs/expfs.c:331-371 | rmdir succeeds if and only if the victim is a directory without entries, then drops one path; otherwise ENOTEMPTY and nothing changes |
| ExpfsRuns.RenameMovesSubtree | expfs/expfs.c:396-434 | for every suffix, the new path resolves to what the old path did, the old path resolves to nothing, and a path through neither is unchanged |
| ExpfsRuns.StepKeepsTree | expfs/expfs.c:236-434 | every operation the VFS may call keeps the tree invariant |
| ExpfsRuns.EveryRunIsATree | expfs/expfs.c:506-514 | the tree invariant holds after every run, from a fresh mount, of inode operations and of file writes that reach no directory block |
| ExpfsRuns.ResizeKeepsTreeExactly | expfs/expfs.c:36-39 | storing a file size in the union field of a block keeps the tree if and only if the block is no live directory, or has that many entries already |
| ExpfsFiles.EverySessionIsATree | expfs/expfs.c:164-197 | over every session of inode operations, opens and writes without a write through an unlinked file, the table stays a tree and every open file that was not unlinked keeps its block |
| ExpfsFiles.StaleWriteBreaksTree | expfs/expfs.c:173-191 | for every MAX_FILE of at least 3: create, open, unlink, mkdir, and a write of any size but 0 through the open file is a possible session, and it breaks the tree |
| ExpfsFiles.TreeNeedsLiveWrites | expfs/expfs.c:173-191 | all sessions keep the tree if and only if writes through unlinked files are ruled out, or nothing can ever be created in the mount |
| ExpfsRuns.BlockAccounting | expfs/expfs.c:261-267 | after every run, usedBlks is 1 plus the used blocks from 2 up plus the successful unlinks and rmdirs |
| ExpfsRuns.GuardMissesExactlyFull | expfs/expfs.c:244-262 | behind the guard, getblock fails if and only if nothing was ever deleted and all MAX_FILE - 2 blocks are taken |
| ExpfsRuns.LifetimeBudget | expfs/expfs.c:244-267 | a mount creates at most MAX_FILE - 1 blocks; a create returns EINVAL if and only if that many were created or the mode is invalid, whatever was deleted |
| ExpfsLimits.BudgetRunsOut | expfs/expfs.c:244-267 | for every MAX_FILE of at least 3, a run of creates and unlinks ends with every block but the root free and every create failing with EINVAL |
| ExpfsLimits.TableRunsOut | expfs/expfs.c:244-262 | for every MAX_FILE, a run of mkdirs ends where the next create passes the guard and getblock finds no block |
| ExpfsRuns.DeleteUndoesCreate | expfs/expfs.c:261-285 | unlink after create, or rmdir after mkdir, restores every entry list, every path, the used blocks and the next index; only usedBlks stays raised |
| ExpfsRuns.RenameBackUndoesRename | expfs/expfs.c:396-434 | the reverse rename is allowed, has room, and restores every path |
| Expfs.FileBlock.IndexOf | expfs/expfs.c:305-306 | the entry scan finds the first entry with the name, or the end of the list |
| Expfs.FileBlock.CloseGap | expfs/expfs.c:353-356 | the shift loop drops one entry and keeps the order of the others; the slots behind keep their stale entries |
| Expfs.FileBlock.Remove | expfs/expfs.c:410-419 | find-and-shift is erasure of the first entry with the name, and gives the index it held |
| Expfs.FileBlock.Append | expfs/expfs.c:281-285 | the entry is stored behind the last one |
| Expfs.Driver.constructor | expfs/expfs.c:507-514 | a zeroed table with block 1 set up as the empty root and one block counted |
| Expfs.Driver.GetBlock | expfs/expfs.c:56-67 | marks the least free block from 2 up as used and changes nothing else; -1 and no change when there is none |
| Expfs.Driver.LookupName | expfs/expfs.c:295-315 | returns the index stored under the name in that directory, or nothing |
| Expfs.Driver.Create | expfs/expfs.c:236-293 | all guards and errors of create, and the whole table after it, or up to the store that would leave the table or the entries |
| Expfs.Driver.Unlink | expfs/expfs.c:373-394 | the whole table after an unlink |
| Expfs.Driver.Rmdir | expfs/expfs.c:331-371 | the whole table after an rmdir, or ENOTEMPTY and no change |
| Expfs.Driver.Rename | expfs/expfs.c:396-434 | the whole table after a rename, also when both directories are the same block, or up to the store that would leave the entries |
| FileData.ReadTellsTruth | expfs/expfs.c:150-161 | 0 at or behind the end; -EFAULT with the position unchanged when the copy of at least one byte faults, whatever that copy stored; otherwise the result is the number of bytes delivered, which start the buffer, by which the position moves: all asked for, or the whole file |
| FileData.WriteTellsTruth | expfs/expfs.c:179-192 | behind the buffer -ENXIO, or 0 for no bytes, and no change; -EFAULT with size and position unchanged and what the copy stored in the buffer; otherwise the result is the number of bytes stored, by which the position moves and behind which the file ends: all offered, or all the room |
| FileData.LongWrite | expfs/expfs.c:171 | a length of 2^32 or more is cut to its low 32 bits first |
| FileData.OpenFile.Read | expfs/expfs.c:143-162 | copies from the start of the buffer whatever the position, at most filesize bytes; the position moves by what was copied; end of file stores nothing, and a fault leaves the position and part of the user buffer |
| FileData.OpenFile.Write | expfs/expfs.c:164-197 | splices at the position, cut off at the buffer's end, and sets filesize to the position behind; ENXIO and a fault leave size and position alone |
| FileData.OpenFile.Seek | expfs/expfs.c:198-226 | EINVAL with the position unchanged if and only if the origin is neither 0 nor 1 or the target lies outside 0 to BUFFER_SIZE; otherwise the position becomes the target, which is returned |
| FileData.SeekThenTell | expfs/expfs.c:204-224 | an absolute seek within the buffer returns its target from any position, and a relative seek by 0 then tells it; any other target or origin is EINVAL with the position unchanged |
| FileData.SeekThereAndBack | expfs/expfs.c:212-220 | a relative seek and its opposite lead back if and only if the position was not beyond the buffer; from beyond, as reads can bring it, the way back is EINVAL |
| FileData.RunStaysInBounds | expfs/expfs.c:143-226 | over every run of calls by any number of open files, filesize stays within BUFFER_SIZE and every position below twice that |
| FileData.WritesAreOneSplice | expfs/expfs.c:164-197 | a nonempty run of writes from any position is one splice of their concatenation, cut off at the buffer's end |
| FileData.WriteThenRead | expfs/expfs.c:143-197 | after writes from position 0 the size is min(BUFFER_SIZE, total), and one large enough read at 0 returns that prefix of the concatenation |
| FileData.ChunkedRead | expfs/expfs.c:150-161 | reading n bytes at a time stops after ceil(F / min(F, n)) reads and yields the first min(F, n) bytes that many times |
| FileData.ChunkedReadExact | expfs/expfs.c:150-161 | the loop yields the contents of every file of size F if and only if n >= F |
| FifoDevice.Device.ShiftDown | globalfifo/globalfifo.c:170-171 | the overlapping ascending copy drops a prefix of the contents and keeps the order of the rest |
| FifoDevice.ReadTellsTruth | globalfifo/globalfifo.c:157-177 | a read returns the number of bytes it takes from the front: as many as asked for, or all there are; a fault takes none |
| FifoDevice.WriteTellsTruth | globalfifo/globalfifo.c:222-243 | a write returns the number of bytes it adds behind: all of its bytes, or what fills the buffer; a fault adds none |
| FifoDevice.Device.TakeFront | globalfifo/globalfifo.c:157-177 | on the array, a read delivers and drops a prefix; a fault drops nothing and may leave anything in the part of the user buffer it was copying to |
| FifoDevice.Device.AppendBack | globalfifo/globalfifo.c:222-243 | on the array, a write appends what there is room for; a fault changes no contents |
| FifoDevice.Device.Clear | globalfifo/globalfifo.c:79-83 | the contents are empty and the whole buffer is zero |
| FifoSafety.StepKeepsInv | globalfifo/globalfifo.c:119-253 | every enabled step of every thread keeps the protocol invariant |
| FifoSafety.SemaphoreDiscipline | globalfifo/globalfifo.c:130-186 | over every interleaving, semaphore value plus number of holders is 1, the length is within the buffer, and a thread that returned holds nothing, is on no queue and is runnable |
| FifoSafety.OnlyTheHolderTouches | globalfifo/globalfifo.c:157-177 | contents change only at an update or a clear of the thread that holds the semaphore, and then it is the only holder |
| FifoSafety.StepKeepsOrder | globalfifo/globalfifo.c:222-243 | every step keeps: bytes accepted so far are the bytes delivered or discarded so far followed by the buffer |
| FifoSafety.FifoOrder | globalfifo/globalfifo.c:157-177 | over every interleaving, the bytes accepted, in semaphore order, are those delivered and discarded, in order, followed by what is buffered |
| FifoSafety.MovedIsLogged | globalfifo/globalfifo.c:157-177 | the record of accepted and delivered bytes grows exactly by what a call moves, at its update |
| FifoSafety.UpdateMovesAll | globalfifo/globalfifo.c:157-171 | at the update of every run, a read takes as many bytes as asked for or empties the buffer, a write adds all of its bytes or fills it |
| FifoSafety.ResultsOfCalls | globalfifo/globalfifo.c:119-253 | in every run a finished read or write returned the count it moved, -EFAULT, or -EAGAIN if non-blocking and -ERESTARTSYS if blocking, an error moving nothing; clear and poll return 0 |
| FifoSafety.SignalEndsCall | globalfifo/globalfifo.c:148-152 | after the sleep a pending signal ends the call with -ERESTARTSYS, and nothing else does |
| FifoSafety.ReadStepsAreOneTransfer | globalfifo/globalfifo.c:157-177 | the copy, update and wake steps of a read amount to the device's read on its array |
| FifoSafety.WriteStepsAreOneTransfer | globalfifo/globalfifo.c:222-243 | the copy, update and wake steps of a write amount to the device's write on its array |
| FifoSafety.ReturnsCount | globalfifo/globalfifo.c:119-187 | a call that returned an error moved nothing; one that returned a count moved that many bytes |
| FifoWakeups.WakesTheOtherKind | globalfifo/globalfifo.c:174 | a read wakes all sleeping writers and no reader, a write all sleeping readers and no writer; no other step changes another thread |
| FifoWakeups.StepMissesNobody | globalfifo/globalfifo.c:174 | every step but a clear under a sleeping writer keeps: a sleeper's condition still holds or its wake-up is on the way |
| FifoWakeups.ClearMissesSleepingWriters | globalfifo/globalfifo.c:79-86 | a clear keeps this for writers, and once it has given the semaphore back writers sleep on a full buffer only, if and only if no writer slept |
| FifoWakeups.SleepingReaderMeansEmpty | globalfifo/globalfifo.c:130-155 | in every run, clears included, a reader asleep while the semaphore is free means an empty buffer |
| FifoWakeups.SleepingWriterMeansFull | globalfifo/globalfifo.c:197-220 | without clears under sleeping writers, a writer asleep while the semaphore is free means a full buffer, and readers and writers never sleep together |
| FifoWakeups.StuckIsOneSided | globalfifo/globalfifo.c:119-253 | such a run is stuck if and only if all calls in progress are reads asleep on an empty buffer or all are writes asleep on a full one |
| FifoReads.SingleReaderGetsBytes | globalfifo/globalfifo.c:134-161 | with one reader, no clears and positive counts, a finished read returned an error or at least one byte, in every interleaving |
| FifoReads.PollPromiseKept | globalfifo/globalfifo.c:103-112 | after a poll reported readable, the single reader's next read does not sleep and returns at least one byte or EFAULT, whatever writers do in between |
| FifoWitness.PollPromiseExactly | globalfifo/globalfifo.c:103-112 | in all runs the next read after a poll reported readable gets at least one byte or EFAULT, if and only if nobody reads, or one thread reads and nobody clears |
| FifoReads.PollAgreesWithEagain | globalfifo/globalfifo.c:103-112 | from any reachable state, a poll bit is clear if and only if a whole non-blocking call from that state returns EAGAIN, whatever the other threads do once each has the semaphore, faults included; one bit is always set |
| FifoReads.ZeroReadHasSlept | globalfifo/globalfifo.c:134-161 | in every run, a finished read of a positive count that returned 0 had slept |
| FifoWitness.ReadsNothing | globalfifo/globalfifo.c:134-161 | for every buffer size and number of threads: with a second reader, or a clear, a reachable state in which a blocking read of one byte has returned 0 |
| FifoWitness.ReadsGetBytesExactly | globalfifo/globalfifo.c:134-161 | no read of a positive count returns 0 in any run if and only if nobody reads, or there is one thread, or one thread reads and nobody clears |
| FifoWitness.WritersWokenExactly | globalfifo/globalfifo.c:79-86 | in all runs, whenever the semaphore is free, writers sleep on a full buffer only, if and only if nobody clears or there is one thread |
| FifoWitness.ClearLosesAWriter | globalfifo/globalfifo.c:79-86 | for every buffer size, writer and reader: a reachable stuck state with an empty buffer and both asleep, after a clear |
| FifoWitness.NoClearNoDeadlock | globalfifo/globalfifo.c:119-253 | without clears no run is stuck with a reader and a writer both asleep |
| FifoWitness.DeadlockNeedsClear | globalfifo/globalfifo.c:79-86 | no run gets stuck with a reader and a writer both asleep if and only if nobody clears, nobody reads, or there is one thread |
| FifoTransfer.CallsDecrease | globalfifo/globalfifo.c:119-253 | 2 * unsent + current_len strictly decreases at each transfer of the two programs and at no other step |
| FifoTransfer.MovesDecrease | globalfifo/globalfifo.c:119-253 | every step of the two programs decreases a measure of steps and bytes left |
| FifoTransfer.NeverStuckEarly | globalfifo/globalfifo.c:119-253 | until the message has arrived, writer or reader can step |
| FifoTransfer.CompleteTransfer | globalfifo/globalfifo.c:119-253 | for every message, buffer size, choice of counts and scheduling: what has arrived is a prefix, the run is at most 40 L + 22 steps long, and when it cannot go on everything has arrived in order |
| Sbull.PutIsSplice | sbull/sbull.c:150-171 | a write request is one splice of the concatenated segments, as far as they fit |
| Sbull.GetIsSplice | sbull/sbull.c:150-171 | a read request fills its concatenated segments from one stretch of the device |
| Sbull.GetKeepsLengths | sbull/sbull.c:150-171 | a read changes no segment's length |
| Sbull.WriteSegmentation | sbull/sbull.c:155-171 | two requests with the same bytes leave the same device, however they are cut |
| Sbull.WriteThenRead | sbull/sbull.c:150-171 | a later read of the same start and length, cut in any other way, returns the bytes written; the rest of the device is unchanged |
| Sbull.Disk.constructor | sbull/sbull.c:410-489 | the size is the product modulo 2^32, the data array has that size, and the capacity is the wrapped product of sectors |
| Sbull.SetupDevice | sbull/sbull.c:410-489 | no device is advertised if and only if the allocation failed or the size wrapped to 0; otherwise size, memory and capacity are those of the two products |
| Sbull.Disk.WriteRequest | sbull/sbull.c:155-171 | the loop over arrays computes the write of the segment list; nr_bytes is how far the position moved; it escapes the array if and only if there is a segment and the start lies beyond the device |
| Sbull.Disk.ReadRequest | sbull/sbull.c:155-171 | the loop over arrays fills the segments and leaves the device as it is; it escapes the array if and only if there is a segment and the start lies beyond the device |
| Sbull.Disk.QueueWrite | sbull/sbull.c:176-191 | one flat splice into the device; BUG if and only if the request starts within the device and runs past its end |
| Sbull.Disk.QueueRead | sbull/sbull.c:176-191 | the segments hold one stretch of the device; BUG if and only if the request starts within the device and runs past its end |
| Sbull.Disk.Transfer | sbull/sbull.c:99-113 | one buffer at the sector's byte offset, refused without effect beyond the end |
| SbullSectors.NeverClampedExactly | sbull/sbull.c:155-171 | on a device that is set up, at either scale, every write and read request of whole sectors inside the capacity, for all segment lists, starts within the device and is copied in full, if and only if the capacity in bytes is within the device size |
| SbullSectors.StartsInsideExactly | sbull/sbull.c:150-162 | on a device that is set up, no nonempty request of whole sectors inside the capacity escapes the array, if and only if the last sector starts within the device |
| SbullSectors.CapacityIsSize | sbull/sbull.c:410-489 | without overflow the size is the product and the capacity in bytes is short of it by the rest of the sector size modulo 512, per sector; equal for multiples of 512 |
| SbullSectors.NegativeCapacity | sbull/sbull.c:489 | a negative sector product is advertised as that much below 2^64 |
| SbullSectors.CapacityFits | sbull/sbull.c:489 | without unsigned overflow the advertised capacity in bytes is within the device size |
| SbullSectors.CapacityOverflows | sbull/sbull.c:410-489 | a configuration that is set up with size 512 and advertised with 2^23 + 1 sectors: a request for its first two sectors is clamped, one at sector 1000 starts beyond the device |
| SbullSectors.InsideCapacityCopiesAll | sbull/sbull.c:155-171 | with the capacity within the size, a request inside the capacity stores or returns every byte, for every segment list and at both scales |
| SbullSectors.IsolationExactly | sbull/sbull.c:150-171 | the segment loop, writing one sector range, leaves all disjoint ranges alone if and only if the scale is at least 512, for all segment lists |
| SbullSectors.NeighboursOverlap | sbull/sbull.c:150 | at any smaller scale, such as 1, writing sector 0 changes sector 1 |
| SbullSectors.DeviceRefinesSectorMap | sbull/sbull.c:99-113 | any run of sbull_transfer reads and writes, refused ones included, leaves the sectors and fills the buffers as on a map from sectors to contents |
| SbullSectors.ReadsSeeSectorMap | sbull/sbull.c:99-113 | after any such run, each sector a read returns is what the map holds there |
| SbullSectors.SectorsUndisturbed | sbull/sbull.c:99-113 | after any such run, a sector that no write covered is as before |
| SbullSectors.LoopAtSectorScale | sbull/sbull.c:150-171 | started at the sector's byte offset, the segment loop would do what sbull_transfer does with the segments glued together |

## Left out

- VFS objects: inodes, dentries, timestamps, permissions, and what `simple_unlink`, `simple_rmdir` and `simple_rename` return; library code outside the repository.
- Rename onto an existing target, and rename flags: the code leaves the target's old entry and block in place, so the target is required absent.
- `expfs_symlink` beyond its create with S_IFLNK: unfinished in the source; the block it creates keeps its previous count, as modelled.
- The expfs spinlock: each operation is one step; the early returns that keep the lock held are not modelled.
- Remounting: a second mount resets block 1 only; runs here are runs of one mount.
- `expfs_iterate` and directory positions, which depend on `dir_emit`.
- Positional reads and writes (`pread`, `pwrite`), whose position is not the open file's.
- Expfs.Driver.Create: what the code overwrites after `OutOfTable` or `OutOfBuffer` is not modelled; the state is the one before that store.
- Expfs.Driver.Rename: likewise after `OutOfBuffer`; and the moved name is required present, as the VFS has it.
- ExpfsRuns.ResizeKeepsTreeExactly: speaks of the size a write stores; the bytes it stores into the entries of a directory that now owns the block are not modelled.
- Bytes shared between views: a block reused as a file starts with whatever its buffer held; entry slots and file bytes beyond the count are not tied to each other.
- FifoProtocol fairness: which waiting `down` gets the semaphore is any of them; no fairness is assumed or proved.
- globalfifo fasync and SIGIO, the poll wait table, the EINVAL of unknown ioctls, registration: I/O plumbing.
- Sbull.Disk.WriteRequest: what an escaping copy overwrites is not modelled; so for ReadRequest.
- Sbull.SetupDevice: failures of the tag set, the queue and the gendisk are kernel calls; 64-bit byte offsets do not wrap.
- sbull queue and gendisk setup, open and release counters, geometry, the media timer and the request modes that are commented out.
- globalmem, globalmem_lock and the small example modules: bounded copies and wrappers that would only add easy members.
