# ThunderOS core, modelled and proved in Dafny

ThunderOS is a RISC-V kernel in C. This project models the parts of it that keep
state consistent under every run, and proves what they promise:

- the ext2 file system: block trees, allocation, file contents, freeing, directories as
  raw bytes, the inode table, and the tree of names;
- physical pages, `kmalloc`, Sv39 page tables, user address spaces and the memory half of `fork`;
- the round-robin scheduler, with interrupts between any two steps;
- the read-write lock, mutex, condition variable and semaphore as protocols of any number of threads;
- pipes, the block driver's virtqueue, and path normalisation.

Every file is one module, named after what it models. `dafny verify dfyconfig.toml`
checks all of them together.

| files | source |
|---|---|
| `Ext2Tree`, `Ext2Alloc`, `Ext2Need`, `Ext2Fit`, `Ext2File`, `Ext2Data`, `Ext2Free`, `Ext2Volume`, `Ext2Example` | `kernel/fs/ext2_alloc.c`, `ext2_file.c`, `ext2_write.c` |
| `Ext2Dir`, `DirScan`, `Ext2Namespace`, `Ext2Inode`, `Paths`, `PathWalk` | `kernel/fs/ext2_dir.c`, `ext2_write.c`, `ext2_inode.c`, `vfs.c` |
| `Pmm`, `Kmalloc`, `Paging`, `TableSet`, `AddressSpace`, `UserTables`, `Fork` | `kernel/mm/pmm.c`, `kmalloc.c`, `paging.c`, `kernel/core/process.c` |
| `SchedModel`, `SchedRuns`, `RoundRobin`, `Scheduler` | `kernel/core/scheduler.c`, `wait_queue.c`, `signal.c`, `process.c`, `syscall.c` |
| `Threads`, `Rwlock`, `Mutex`, `Semaphore` | `kernel/core/rwlock.c`, `mutex.c`, `condvar.c` |
| `Pipe`, `PipeRing`, `Descriptors`, `Virtqueue` | `kernel/core/pipe.c`, `kernel/drivers/virtio_blk.c` |
| `Arith`, `Bytes`, `Circular` | division by a variable, bitmaps and little-endian fields, circular buffers |

## How the models are built

- Operations that work on large structures (a disk, physical memory) are methods with
  the source's loops and branches that take the structure as a value and return its next
  value. Small structures (the ready ring, the pipe's ring, the virtqueue, the heap, a
  mounted volume) are classes updated in place.
- Ghost parameters carry what the proofs need: which block or frame is which position of
  which tree, which entries a directory's bytes hold, which pages a heap block owns.
- Concurrency is a machine whose steps are the stretches of code that run with interrupts
  off; any enabled step of any thread may come next. The fields the code updates in such a
  stretch are classes beside the machine, and each method is proved to be its step.
- 32-bit sums in file offsets, 16-bit record lengths and ring indices, 64-bit sizes and
  the 44-bit page number of a page table entry are written out, with the exact condition
  under which they do not matter.
- A specification function is not left to stand for itself: where it computes a place (the
  block of a file block, the record of an inode, the word of an address, the bytes of an
  entry) a lemma gives the place by plain numbers, and where it decides or measures (a
  pointer accepted, a lock taken, the bytes of a read) a lemma gives the exact condition
  or amount from the state.
- Inductions are written out: no proof depends on the automatic induction of lemmas, and
  the lemmas over runs turn it off.

## Where the code falls short of the promise

For each of these there is a case, and a lemma that says exactly when it happens.

- A process that returns from the sleep inside `wait` marks itself running even when
  `schedule` came back idle with no current process: from boot `SchedRuns.BootWaitBreaks`,
  exactly when `SchedModel.UntamedBreaks`.
- A stop signal delivered between a sleeper's wake-up and its call of `schedule` stops a
  process that is in the ready ring: from boot `SchedRuns.BootRuns`, exactly when
  `SchedModel.UntamedBreaks`.
- A process woken before its own call of `schedule` can be picked while still current,
  stay ready, and never be queued again: from boot `SchedRuns.BootRuns`, exactly when
  `SchedRuns.HangsExactly` and `SchedRuns.RunLosesExactly`, and for good `SchedRuns.LostForever`.
- A stopped process can go on without SIGCONT, when a wake-up was decided on before the
  stop: from boot `SchedRuns.BootRuns`; exactly which steps end a stop, its own exit among
  them, `SchedRuns.StoppedExactly`, and over runs `SchedRuns.StoppedStays`.
- The locks and the condition variable look, turn interrupts on, and only then sleep, so a
  wake-up can be missed: `Rwlock.LateSleepStranded`, `Mutex.LateSignalMissed`,
  `Semaphore.LateSleepStranded`; over every run exactly when `Rwlock.RunServed`,
  `Mutex.RunServed` and `Semaphore.RunServed` say.
- `cond_signal` is documented to wake one waiter; the code wakes all: `Mutex.BothWoken`,
  and `Mutex.SignalWakes` for when that makes a difference.
- Freeing a descriptor chain before it was filled follows old flags, and can lose the
  driver its queue for good: `Descriptors.EightDies`, exactly how much
  `Descriptors.RequestsLose`, and when nothing is lost `Descriptors.RunLosesNothing`.
- The available ring loses step at the wrap of its index for some sizes: `Virtqueue.ThreeSlots`,
  exactly when `Virtqueue.SlotsInStep`.
- Closing an end of a pipe that is already closed on both sides half reopens it:
  `Pipe.CloseTwiceReopens`, exactly when `Pipe.CloseReadMatches` and `Pipe.CloseWriteMatches`.
- `kmalloc` of a size near 2^64 wraps: `Kmalloc.WrappedSize`, exactly when `Kmalloc.PagesSuffice`.
- Where regions overlap, parent and child of a fork can disagree about a pointer:
  `Fork.OverlapDiffers`, exactly when `Fork.VerdictAgrees`.
- A read whose offset and size wrap at 2^32 is not clamped to the file: `Ext2Data.ReadWraps`,
  exactly when `Ext2Data.ReadLengthExact`.
- A write cut short by a full disk leaves bytes past the recorded end, which a later write
  uncovers: `Ext2Example.StaleTail`, exactly when `Ext2Data.FailedWriteTail`, from the state
  before the write.
- A removed directory entry's length is merged into sixteen bits, and names behind it can
  be lost: `DirScan.RemovalLosesNames`, exactly when `DirScan.RemovalExactly`, which is not
  always when the field is wrong: `Ext2Dir.MergeFits`, `DirScan.LastHarmless`.
- Blocks of a volume of more than 4 GiB share sectors, since the byte offset is computed in
  32 bits: `Ext2Alloc.SectorWraps`, exactly when `Ext2Alloc.SectorsApart`.
- Path normalisation keeps 64 components and drops the rest, so a path of 65 names, well
  inside the buffer, leads to the directory above: `PathWalk.SixtyFiveNames`, exactly when
  `PathWalk.DepthExactly` and `PathWalk.ResolvesSame`.
- A missing name before ".." is normalised away, so a path that leads nowhere resolves:
  `PathWalk.MissingForgiven`, exactly when `PathWalk.RawExactly`.

## Model

| member | source | states |
|---|---|---|
| `Bytes.ClearBitsFlip` | kernel/fs/ext2_alloc.c:92-107 | flipping one bit of a bitmap moves its number of clear bits by exactly one, in the right direction |
| `Bytes.FindClear` | kernel/fs/ext2_alloc.c:86-92 | the scan returns the lowest clear bit, or the limit exactly when every bit is set |
| `Bytes.BitmapBit` | kernel/fs/ext2_alloc.c:86-92 | bit 8n + k of a bitmap is the digit worth 2^k of its byte n |
| `Bytes.WordBytes` | kernel/fs/ext2_file.c:69-75 | a word is stored with its lowest byte first |
| `Ext2Tree.OwnedImpliesNoSharing` | kernel/fs/ext2_write.c:60-273 | with one owner per block, no block is reachable twice, as data or pointer block, from one inode or two |
| `Ext2Tree.SlotOfInjective` | kernel/fs/ext2_file.c:41-135 | no two file blocks within the double-indirect range share a pointer position |
| `Ext2Tree.DirectBlocks` | kernel/fs/ext2_file.c:47-50 | the first twelve file blocks are the first twelve words of i_block |
| `Ext2Tree.IndirectBlocks` | kernel/fs/ext2_file.c:52-76 | file block 12 + i is word i of the block that i_block[12] names, 0 without that block |
| `Ext2Tree.DoubleIndirectBlocks` | kernel/fs/ext2_file.c:78-128 | file block 12 + P + i * P + j is word j of the block named by word i of the block that i_block[13] names, 0 where one of them is missing |
| `Ext2Tree.PastTheTree` | kernel/fs/ext2_file.c:130-135 | from file block 12 + P + P * P on nothing is mapped |
| `Ext2Tree.WriteKeepsTree` | kernel/fs/ext2_write.c:331-341 | writing a data block or a block outside all trees moves no pointer of any inode |
| `Ext2Tree.AttachRoot` | kernel/fs/ext2_write.c:67-88 | hanging a fresh zeroed block into an inode's own pointer changes that one position of that one inode, and ownership stays one to one |
| `Ext2Tree.AttachWord` | kernel/fs/ext2_write.c:92-273 | storing a fresh zeroed block in a word of a pointer block changes that one position only, and ownership stays one to one |
| `Ext2Alloc.AllocBlock` | kernel/fs/ext2_alloc.c:59-118 | returns the lowest free block of the group and marks only it, or 0 exactly when the group is full; every counter still equals its clear bits |
| `Ext2Alloc.FreeBlock` | kernel/fs/ext2_alloc.c:123-172 | refuses exactly block 0 and blocks of no group; otherwise clears only that bit, and the counters stay right if and only if the block was in use |
| `Ext2Alloc.UsedByNumber` | kernel/fs/ext2_alloc.c:88-111 | block g * blocks_per_group + i is bit i of group g's bitmap |
| `Ext2Alloc.FlipCounted` | kernel/fs/ext2_alloc.c:92-107 | group and superblock counts keep their meaning if and only if the bit really changed |
| `Ext2Alloc.SectorsApart` | kernel/fs/ext2_write.c:15-54 | different blocks are in different places on the device if and only if the volume has at most 4 GiB |
| `Ext2Need.RoomMarked` | kernel/fs/ext2_alloc.c:92-107 | handing out a block of group 0 takes one off what can still be allocated |
| `Ext2Need.NoGaps` | kernel/fs/ext2_file.c:41-135 | a position has its block if and only if nothing is missing on the way to it |
| `Ext2Need.PaidAfter` | kernel/fs/ext2_write.c:92-273 | closing one gap and then the rest costs one block for each, however many pointer blocks are missing |
| `Ext2Fit.Fit` | kernel/fs/ext2_write.c:279-356 | how many bytes of a write fit, from the volume before it: the longest beginning whose blocks are in range and whose missing data and pointer blocks, each counted once, are at most the free blocks of group 0 |
| `Ext2Fit.FitsLess` | kernel/fs/ext2_write.c:296-342 | if so much fits, less fits |
| `Ext2Fit.FitIs` | kernel/fs/ext2_write.c:296-342 | that beginning is unique |
| `Ext2Fit.SpentMore` | kernel/fs/ext2_write.c:296-342 | a round of the write loop takes exactly the blocks that the rounds before did not bring |
| `Ext2Fit.SpentAll` | kernel/fs/ext2_write.c:296-342 | a round that fails is the one at which the bytes no longer fit |
| `Ext2File.GetBlockNumber` | kernel/fs/ext2_file.c:41-135 | the read-side walk finds the block of the file block, which DirectBlocks, IndirectBlocks and DoubleIndirectBlocks give by numbers; 0 for holes and past the double-indirect range |
| `Ext2File.GetOrAllocBlock` | kernel/fs/ext2_write.c:60-273 | maps the requested file block and no other; afterwards the read-side walk finds the block returned; without allocation it agrees with the read-side walk everywhere and changes nothing; it fails exactly past the double-indirect range or when more blocks are missing on the way than group 0 has free, and otherwise takes exactly those |
| `Ext2File.ObtainedWalk` | kernel/fs/ext2_write.c:60-273 | after mapping, the read-side walk gives the new block at that index and the old answer at every other |
| `Ext2File.HangRootLaw` | kernel/fs/ext2_write.c:67-88 | allocation, zeroing and the pointer store together keep disk, bitmaps, counters and ownership consistent |
| `Ext2File.HangWordLaw` | kernel/fs/ext2_write.c:92-273 | the same for a word of a pointer block |
| `Ext2Data.WriteFile` | kernel/fs/ext2_write.c:279-356 | the first w bytes of the buffer are stored at offset onwards, no other byte of any file changes, consistency is kept; w is exactly what fits on the volume before the call, and the write succeeds if and only if the buffer is not empty and fits whole; the size grows only on success |
| `Ext2Data.WriteLoop` | kernel/fs/ext2_write.c:296-342 | every round stores its part and nothing else, with offsets going round at 2^32 as in the code, until what fits is stored |
| `Ext2Data.FileByteAt` | kernel/fs/ext2_file.c:166-208 | byte o of file block fb is byte o of the block that holds it, zero in a hole |
| `Ext2Data.NoStraddle` | kernel/fs/ext2_write.c:296-314 | a run inside one block never crosses 2^32 |
| `Ext2Data.ReadFile` | kernel/fs/ext2_file.c:140-214 | returns the file's bytes from offset on, holes as zeros: nothing from the end of the file on, and before it the smaller of size and what is left, unless offset and size wrap at 2^32 |
| `Ext2Data.ReadLengthExact` | kernel/fs/ext2_file.c:147-156 | the clamp at the end of the file is right if and only if offset + size does not wrap at 2^32 |
| `Ext2Data.ReadWraps` | kernel/fs/ext2_file.c:147-156 | a read of a 100-byte file that returns 4294967280 bytes |
| `Ext2Data.WriteIsOverlay` | kernel/fs/ext2_write.c:279-356 | a completed write turns the contents into the old contents with the buffer laid over at offset, a gap as zeros; zeros past the end are kept; every other inode's contents are as before |
| `Ext2Data.WriteThenRead` | kernel/fs/ext2_write.c:279-356 | write, then read of the whole file: the overlay comes back, and every other file is unchanged |
| `Ext2Data.FailedWriteTail` | kernel/fs/ext2_write.c:296-308 | after a write that stops part-way the bytes past the recorded end are zero if and only if the part that fits, told from the volume before the write, has no nonzero byte there |
| `Ext2Example.OneBlockFits` | kernel/fs/ext2_write.c:296-342 | on a volume with one free block 1024 of 1025 bytes fit |
| `Ext2Example.StaleTail` | kernel/fs/ext2_write.c:279-356 | that write fails and leaves the size at zero, and a byte written at offset 10 afterwards uncovers ten bytes of it |
| `Ext2Free.FreeInodeBlocks` | kernel/fs/ext2_write.c:731-804 | frees exactly the inode's blocks, each once and while in use; all others stay in use; the inode has no pointers left and every other tree is untouched |
| `Ext2Free.FreeSlot` | kernel/fs/ext2_write.c:738-744 | freeing the block at one position is one step of that walk |
| `Ext2Free.Covered` | kernel/fs/ext2_write.c:731-804 | the walk visits every position at which the inode owns a block |
| `Ext2Volume.SameTreesSameUse` | kernel/fs/ext2_write.c:731-804 | two consistent volumes with the same trees mark the same blocks |
| `Ext2Volume.SameUseSameCounts` | kernel/fs/ext2_alloc.c:59-172 | and then have the same counters |
| `Ext2Volume.WritesThenFree` | kernel/fs/ext2_write.c:279-804 | from an inode without blocks, any sequence of writes, also ones stopped by a full disk, and then freeing: bitmap and both counters exactly as before |
| `Ext2Volume.ConsistentCounts` | kernel/fs/ext2_write.c:60-273 | a consistent volume shares no block, marks every reachable block, and counts its clear bits |
| `Ext2Volume.LayRawAt` | kernel/fs/ext2_write.c:296-342 | a byte of a file after bytes were laid over it, going round at 2^32 |
| `Ext2Volume.CleanReplay` | kernel/fs/ext2_write.c:279-356 | when every write is stored whole and in range, the replay lays each over the contents before it, a gap as zeros, and leaves nothing past any end |
| `Ext2Volume.Volume.constructor` | kernel/fs/ext2_write.c:279-356 | a volume with no files is a valid start |
| `Ext2Volume.Volume.Create` | kernel/fs/ext2_write.c:534-548 | a new file is empty, and the others are as before |
| `Ext2Volume.Volume.Write` | kernel/fs/ext2_write.c:279-356 | for every offset and size of 32 bits: the bytes that fit are stored in that file, going round at 2^32, also when the write fails; the size grows only on success; every other file is as before |
| `Ext2Volume.Volume.Remove` | kernel/fs/ext2_write.c:731-804 | a removed file is gone, and the others are as before |
| `Ext2Volume.Volume.Read` | kernel/fs/ext2_file.c:140-214 | returns the part of the file from offset on, size bytes or as far as the file goes; nothing from its end on |
| `Ext2Volume.Volume.Run` | kernel/fs/ext2_write.c:60-804 | over every run no block is reachable twice, every reachable block is marked, every counter is right; and the files, with the bytes past their ends, are the replay of what each write stored, which is what fitted on the volume as it was before that write, failed and wrapped writes included |
| `Ext2Dir.StrEqExact` | kernel/fs/ext2_dir.c:26-36 | strncmp of n bytes against a name without NUL is equality of those bytes |
| `Ext2Dir.Lookup` | kernel/fs/ext2_dir.c:41-105 | on bytes tiled by entries, returns the inode of the first entry with the name, 0 if there is none |
| `Ext2Dir.PutEntryLaw` | kernel/fs/ext2_write.c:437-463 | a stored entry reads back with all its fields, and no byte outside it changes |
| `Ext2Dir.EntryByBytes` | include/fs/ext2.h:186-192 | an entry is where its bytes are: inode number, record length, name length, type, name, in that order and lowest byte first |
| `Ext2Dir.SplitLaw` | kernel/fs/ext2_write.c:427-445 | splitting an entry's slack leaves the bytes tiled by the old entries and the new one |
| `Ext2Dir.AppendLaw` | kernel/fs/ext2_write.c:450-466 | an entry in a new block, whatever the buffer held, extends the tiling |
| `Ext2Dir.AddEntry` | kernel/fs/ext2_write.c:385-489 | accepts exactly names of 1 to 255 bytes; the first entry with enough slack keeps what it needs and the new one gets the rest of its length, or, when there is none, a new block; the bytes stay tiled |
| `Ext2Dir.MergeLaw` | kernel/fs/ext2_write.c:847-857 | an entry swallowed by the one before, in a length that fits, leaves the bytes tiled by the rest |
| `Ext2Dir.MergeFits` | kernel/fs/ext2_write.c:850 | the merged length is stored right if and only if it is below 65536 |
| `Ext2Dir.RemoveEntry` | kernel/fs/ext2_write.c:810-890 | on tiled bytes of any size finds the first entry with the name if and only if there is one, and adds its length to the one before, modulo 65536; the very first entry loses its inode instead; nothing else changes |
| `Ext2Dir.InsertLaw` | kernel/fs/ext2_write.c:385-489 | an entry with a fresh name changes the lookup of that name only, wherever it is put |
| `Ext2Dir.RemoveLaw` | kernel/fs/ext2_write.c:810-890 | taking an entry out changes the lookup of its name only |
| `Ext2Dir.NewDirectory` | kernel/fs/ext2_write.c:641-671 | the block a new directory gets is a directory with "." and ".." |
| `Ext2Dir.DirAdd` | kernel/fs/ext2_write.c:385-489 | adding a fresh name: it is found from then on, every other lookup is as before, and it stays a directory |
| `Ext2Dir.DirRemove` | kernel/fs/ext2_write.c:810-890 | removing a name: it is not found from then on, every other lookup is as before, and it stays a directory |
| `Ext2Dir.IsEmpty` | kernel/fs/ext2_write.c:896-944 | answers yes if and only if nothing but "." and ".." is in it |
| `Ext2Dir.NotFound` | kernel/fs/ext2_dir.c:41-105 | lookup returns 0 exactly for absent names |
| `DirScan.ScanFinds` | kernel/fs/ext2_dir.c:79-100 | the lookup loop on bytes of any kind is, on tiled bytes, the lookup in the list |
| `DirScan.MergedScan` | kernel/fs/ext2_write.c:810-890 | what every lookup gives after a removal, for every length: up to the entry before the removed one as it was, then from its new length on, in sixteen bits |
| `DirScan.MergeKeeps` | kernel/fs/ext2_write.c:847-857 | if the merged length is below 65536, every lookup is that in the remaining entries |
| `DirScan.MergeStops` | kernel/fs/ext2_write.c:847-857 | if it is 65536, every lookup is that in the entries before the one that swallows |
| `DirScan.MergeTiles` | kernel/fs/ext2_write.c:847-857 | the remaining entries tile the bytes if and only if it is below 65536 |
| `DirScan.RemovalExactly` | kernel/fs/ext2_write.c:810-890 | with distinct names a removal changes the lookup of its own name only, if and only if the merged length is below 65536, or above it and what lies at its remainder leads to the rest all the same |
| `DirScan.LastHarmless` | kernel/fs/ext2_write.c:847-857 | as when the last entry is removed and the walk lands on zeros |
| `DirScan.FirstRemoved` | kernel/fs/ext2_write.c:852-854 | removing the first entry leaves every lookup among the others as it was |
| `DirScan.RemovalLosesNames` | kernel/fs/ext2_write.c:810-890 | a directory of seventeen blocks from which removing one name makes another, and "..", impossible to find |
| `Ext2Dir.DirStep` | kernel/fs/ext2_write.c:385-890 | each operation on the bytes is the same operation on a table of names |
| `Ext2Dir.RunDir` | kernel/fs/ext2_write.c:385-890 | over every run of adds and removes the bytes tile the size exactly and every lookup is that of the table of names |
| `Ext2Inode.InodesApart` | kernel/fs/ext2_inode.c:75-100 | records of two inodes never overlap |
| `Ext2Inode.InodeByNumber` | kernel/fs/ext2_inode.c:75-100 | inode 1 + g * inodes_per_group + b * inodes_per_block + k is record k of block b of group g's table |
| `Ext2Inode.ReadInode` | kernel/fs/ext2_inode.c:61-129 | returns the record of the inode, and refuses exactly inode 0 and numbers outside the table |
| `Ext2Inode.WriteInode` | kernel/fs/ext2_inode.c:134-213 | that inode's record is the new one; every other inode's record and every other block is as before |
| `Ext2Inode.WriteThenRead` | kernel/fs/ext2_inode.c:61-213 | what was written is read back |
| `Ext2Namespace.AllocInode` | kernel/fs/ext2_alloc.c:178-237 | the lowest free inode of the group, numbered from 1, or 0 exactly when the group is full |
| `Ext2Namespace.FreeInode` | kernel/fs/ext2_alloc.c:242-294 | clears that inode's bit only; counters stay right if and only if it was in use |
| `Ext2Namespace.AddLeaf` | kernel/fs/ext2_write.c:495-710 | a new inode with its entry keeps the tree: places, depths, link counts, parsed bytes |
| `Ext2Namespace.RemoveLeaf` | kernel/fs/ext2_write.c:950-1133 | removing an inode with its entry keeps it too |
| `Ext2Namespace.OnePath` | kernel/fs/ext2_write.c:495-1133 | the live inodes form a tree: a path without dot names leads to an inode if and only if it is that inode's one path |
| `Ext2Namespace.TreeNamedOnce` | kernel/fs/ext2_write.c:495-1133 | no two entries other than the dots name the same inode |
| `Ext2Namespace.Target` | kernel/fs/ext2_write.c:973-990 | what a lookup in a live directory can return |
| `Ext2Namespace.RootOnly` | kernel/fs/ext2_write.c:641-671 | a root directory with its dots alone is a tree |
| `Ext2Namespace.FileSystem.constructor` | kernel/fs/ext2_write.c:495-568 | any consistent start |
| `Ext2Namespace.FileSystem.Create` | kernel/fs/ext2_write.c:495-710 | succeeds if and only if the parent is a directory, the name is good and absent and an inode is free; adds exactly that inode; each error code exactly when it applies; on failure nothing has changed, the inode bitmap included |
| `Ext2Namespace.FileSystem.RemoveFile` | kernel/fs/ext2_write.c:950-1033 | succeeds if and only if the name is there and no directory; removes exactly that inode and its entry; each error code exactly when it applies |
| `Ext2Namespace.FileSystem.RemoveDir` | kernel/fs/ext2_write.c:1040-1133 | succeeds if and only if the name is there and an empty directory; removes exactly it and lowers the parent's link count; each error code exactly when it applies |
| `Ext2Namespace.FileSystem.Run` | kernel/fs/ext2_write.c:495-1133 | over every run: a tree, no inode named twice, link counts two plus subdirectories, and exactly the live and reserved inodes marked |
| `Paths.BuildAbsolute` | kernel/fs/vfs.c:50-79 | an absolute path as it is; a relative one behind the working directory, with a slash between them if there is none yet; cut to 255 bytes |
| `Paths.ResolveComponents` | kernel/fs/vfs.c:92-136 | the cursor loop computes the fold of the components over a stack |
| `Paths.WriteOut` | kernel/fs/vfs.c:138-156 | writes slash-separated components as far as the buffer goes; the first slash goes in unchecked |
| `Paths.Normalize` | kernel/fs/vfs.c:172-192 | the three together; refuses exactly a buffer of no bytes, and the text leaves room for its NUL if and only if the buffer has two |
| `Paths.RelativeIsJoined` | kernel/fs/vfs.c:172-192 | a relative path has the normal form of working directory, slash and path, from any other working directory; for an absolute one the working directory does not matter |
| `Paths.RelativeComps` | kernel/fs/vfs.c:50-136 | a relative path in range has the components of the working directory, then its own |
| `Paths.StackNormal` | kernel/fs/vfs.c:92-136 | the result has no empty, "." or ".." component and at most 64 |
| `Paths.RenderFits` | kernel/fs/vfs.c:91-156 | the result is not longer than the absolute path |
| `Paths.RenderAgain` | kernel/fs/vfs.c:91-156 | splitting and folding a written-out stack gives it back |
| `Paths.Idempotent` | kernel/fs/vfs.c:172-192 | normalising a normalised path changes nothing, for every path |
| `Paths.FixedExactly` | kernel/fs/vfs.c:172-192 | an absolute path in range is its own normal form if and only if its components are proper names, at most 64, joined by single slashes |
| `Paths.CutIsNotNormal` | kernel/fs/vfs.c:138-153 | with a buffer shorter than the path, which no caller passes, that fails |
| `PathWalk.SameInode` | kernel/fs/vfs.c:340-408 | if following a path through the directories' own "." and ".." entries reaches an inode, and no name meets a stack of 64, the normalised path is that inode's one path and reaches it |
| `PathWalk.MeansItsPath` | kernel/fs/vfs.c:340-408 | a path that leads to an inode, by names and by the dot entries on disk, means that inode's one plain path |
| `PathWalk.AgreesExactly` | kernel/fs/vfs.c:91-136 | for components as short as a call's text makes them, the stack of 64 ends as an unlimited one would if and only if no name comes while it is full: there is no room to pop 64 names and hide the one dropped |
| `PathWalk.DepthExactly` | kernel/fs/vfs.c:115-127 | an inode's own path survives normalisation if and only if it has at most 64 names |
| `PathWalk.OneTooDeep` | kernel/fs/vfs.c:115-127 | with 65 it leads to the directory the inode is in |
| `PathWalk.SixtyFiveNames` | kernel/fs/vfs.c:115-127 | a text of 130 bytes that loses its last name |
| `PathWalk.ResolvesSame` | kernel/fs/vfs.c:340-408 | for any path and working directory: if the text leads to an inode, its normal form leads there if and only if no name comes while the stack of 64 is full |
| `PathWalk.ResolvesFrom` | kernel/fs/vfs.c:340-408 | if the working directory leads to d and the path's own components lead from d to an inode, the normal form of the relative path leads there if and only if no name comes while the stack of 64 is full |
| `PathWalk.RawExactly` | kernel/fs/vfs.c:340-408 | the other way round: following the path as written reaches the inode if and only if its meaning does and every directory it passes through is there |
| `PathWalk.MissingForgiven` | kernel/fs/vfs.c:340-408 | a path through a missing name that resolves |
| `Pmm.AllocPage` | kernel/mm/pmm.c:117-134 | the lowest free page, or 0 exactly when there is none; the count equals the clear bits |
| `Pmm.AllocPages` | kernel/mm/pmm.c:139-192 | the lowest run of n free pages and exactly those marked, or 0 exactly when n is 0 or no such run exists |
| `Pmm.FreePage` | kernel/mm/pmm.c:197-227 | clears the bit of a page that is handed out; misaligned, foreign and free addresses change nothing |
| `Pmm.FreePages` | kernel/mm/pmm.c:232-240 | the managed pages in the range are free afterwards and nothing else changes |
| `Kmalloc.PagesSuffice` | kernel/mm/kmalloc.c:33-37 | the pages hold header and data if and only if the size_t sums do not wrap |
| `Kmalloc.PagesLeast` | kernel/mm/kmalloc.c:33-37 | and then they are the fewest that do |
| `Kmalloc.WrappedSize` | kernel/mm/kmalloc.c:33-37 | a size for which they wrap |
| `Kmalloc.BlocksDisjoint` | kernel/mm/kmalloc.c:28-62 | blocks in use have no byte in common |
| `Kmalloc.AllReturned` | kernel/mm/kmalloc.c:67-87 | once every block is freed the pages in use are those held by others |
| `Kmalloc.Heap.constructor` | kernel/mm/kmalloc.c:28-62 | an empty heap over any allocator state |
| `Kmalloc.Heap.Alloc` | kernel/mm/kmalloc.c:28-62 | NULL exactly for size 0 or when no run of pages is free; otherwise a new block, with every page accounted to one block or to others |
| `Kmalloc.Heap.Free` | kernel/mm/kmalloc.c:67-87 | in any order, exactly the pages of that block become free |
| `Paging.PteRoundTrip` | include/mm/paging.h:62-67 | an entry gives back its page if and only if the address has at most 56 bits |
| `Paging.VpnAlias` | include/mm/paging.h:25-28 | addresses are the same page to a table if and only if 27 bits agree |
| `Paging.VpnByNumber` | include/mm/paging.h:25-28 | the byte at i * 2^30 + j * 2^21 + k * 2^12 + offset is on page (i, j, k) |
| `Paging.WalkByHand` | kernel/mm/paging.c:43-86 | the entry of page (i, j, k) is word k of the table named by word j of the table named by word i of the root, if its valid bit is set |
| `Paging.WalkStops` | kernel/mm/paging.c:43-86 | where a word on the way is not valid nothing is mapped |
| `Paging.Different` | kernel/mm/paging.c:43-86 | no frame is two tables |
| `Paging.LowStorePte` | kernel/mm/paging.c:110-137 | a store into a leaf table changes the one page it is the entry of |
| `Paging.HangPte` | kernel/mm/paging.c:66-80 | a new table changes no page |
| `Paging.UserAbove` | kernel/mm/paging.c:394-400 | above 0x80000000 a user sees the kernel's pages wherever it holds the kernel's root entry |
| `TableSet.HangAdds` | kernel/mm/paging.c:66-80 | hanging in a table adds that table and no other, for every root |
| `TableSet.LowStoreAdds` | kernel/mm/paging.c:110-137 | a store into a leaf table adds none |
| `TableSet.GapsLeft` | kernel/mm/paging.c:43-86 | what one more page of a root still needs is what its other pages did not bring |
| `TableSet.SpotsSize` | kernel/mm/paging.c:43-86 | how many tables a set of pages takes does not depend on the root |
| `AddressSpace.AllocTable` | kernel/mm/paging.c:24-37 | a free frame, all zero; no table and no page changes |
| `AddressSpace.Descend` | kernel/mm/paging.c:47-81 | one level of the walk: the next table, made when missing; fails exactly at a leaf entry or without memory |
| `AddressSpace.WalkCreate` | kernel/mm/paging.c:43-86 | the leaf table; fails exactly when a leaf entry is in the way or fewer frames are free than tables are missing; otherwise exactly the missing tables are added, a frame for each; no page changes either way |
| `AddressSpace.MapPage` | kernel/mm/paging.c:91-115 | each error code exactly when it applies; success maps that page of that root, takes a frame for each missing table, and changes no other page of any root; failure changes no page; tables stay distinct |
| `AddressSpace.UnmapPage` | kernel/mm/paging.c:120-141 | succeeds exactly on an aligned mapped page, which alone is unmapped |
| `AddressSpace.VirtToPhys` | kernel/mm/paging.c:146-157 | frame and offset exactly when the page is mapped |
| `AddressSpace.UserIsolated` | kernel/mm/paging.c:91-115 | mapping below 0x80000000 in one user changes no translation of the kernel or of another user |
| `AddressSpace.KernelShows` | kernel/mm/paging.c:387-432 | a change of the kernel's shows in a user exactly where the user holds that root entry |
| `UserTables.CopyRoot` | kernel/mm/paging.c:394-401 | root entries 2 to 511 are copied, 0 and 1 empty |
| `UserTables.DeviceSpots` | kernel/mm/paging.c:403-430 | the ten device pages need three tables |
| `UserTables.DeviceIdentity` | kernel/mm/paging.c:403-430 | UART, VirtIO and CLINT pages are mapped where they are, readable and writable by the kernel alone |
| `UserTables.CreateUser` | kernel/mm/paging.c:387-432 | succeeds if and only if four frames are free, and takes four; the new root maps the ten device pages and nothing else below, the kernel's pages above, and every other root is as before |
| `UserTables.NewUserView` | kernel/mm/paging.c:387-432 | every page of a new user |
| `UserTables.FreeLows` | kernel/mm/paging.c:309-344 | the leaf tables below one middle table, each once |
| `UserTables.FreesNext` | kernel/mm/paging.c:342-343 | each table is still handed out when it is freed |
| `UserTables.FreeTables` | kernel/mm/paging.c:309-368 | exactly the user's own tables are given back; no frame of the kernel, of another user or of a mapped page is; the rest stays consistent |
| `Fork.Permissions` | kernel/core/process.c:703-708 | the child's entry permits reading, writing, executing and user access if and only if the region does |
| `Fork.FindVma` | kernel/core/process.c:1248-1262 | the first region of the list that holds the address |
| `Fork.AcceptedInside` | kernel/core/process.c:1416-1451 | every byte of an accepted pointer is in a region with the required flags, and below the kernel |
| `Fork.AcceptedExactly` | kernel/core/process.c:1416-1451 | the whole verdict, with disjoint regions: accepted if and only if pointer and size are not zero, the end is below the kernel, and one region with the required flags reaches from the pointer or before to the end or beyond |
| `Fork.FirstDecides` | kernel/core/process.c:1416-1451 | where regions overlap, the verdict is that of the first that holds the address |
| `Fork.SameVerdict` | kernel/core/process.c:1416-1451 | with disjoint regions the reversed list gives the same verdict on every query |
| `Fork.VerdictAgrees` | kernel/core/process.c:1416-1451 | in general, at one address, if and only if the first and the last region that hold it have the same end and flags |
| `Fork.OverlapDiffers` | kernel/core/process.c:1416-1451 | two regions for which it differs |
| `Fork.CopyPage` | kernel/core/process.c:689-719 | nothing where the parent has no page; else, exactly when the page is aligned, not yet mapped in the child and the frames suffice, a fresh frame with the same words, mapped with the region's permissions |
| `Fork.CopyRegion` | kernel/core/process.c:688-719 | every mapped page of the region, or a proof that the fork cannot succeed |
| `Fork.CostAtLeast` | kernel/core/process.c:670-722 | some of the pages and regions never cost more than all |
| `Fork.Untidy` | kernel/core/process.c:711-717 | a page that is misaligned, in two regions or on a device page makes the fork fail |
| `Fork.TooFew` | kernel/core/process.c:693-717 | so does a page for which frames run out |
| `Fork.Enough` | kernel/core/process.c:670-722 | and otherwise nothing does |
| `Fork.ForkMemory` | kernel/core/process.c:670-722 | succeeds if and only if no region is empty, the mapped pages are aligned, in one region each and clear of the devices, and the free frames cover root, tables, copies and region nodes; it then takes exactly that many; the child has exactly those copies and the device pages, and the regions in reverse; on success and failure no translation and no word of anyone else changes |
| `Fork.ForkedPage` | kernel/core/process.c:678-722 | each mapped region page of the parent: same address, fresh frame, equal words, the region's permissions; the parent unchanged |
| `Fork.ForkedApart` | kernel/core/process.c:678-722 | no frame of the child is a frame of the parent's regions, and no two of its pages share one |
| `SchedModel.RoomForOne` | kernel/core/scheduler.c:58-77 | a process that is not queued always finds room among distinct ones |
| `SchedModel.RemoveFirst` | kernel/core/scheduler.c:82-104 | dequeueing takes the first occurrence out and leaves the rest in order |
| `SchedModel.SwitchKeeps` | kernel/core/scheduler.c:187-247 | a switch runs the head of the ring, queues a running predecessor last and changes no other state |
| `SchedModel.StayKeeps` | kernel/core/scheduler.c:187-252 | no switch: no state changes, and the current process goes on or there is none |
| `SchedModel.StepKeeps` | kernel/core/scheduler.c:58-252 | every step keeps the invariant behind the claim |
| `SchedModel.ReachableOrderly` | kernel/core/scheduler.c:58-252 | in every reachable state the ring holds distinct ready processes, and whoever runs is the current process |
| `SchedModel.EnqueueLands` | kernel/core/wait_queue.c:87-158 | every process made ready, by a wait queue or by process_wakeup, is put into the ring: the branch that drops it is never taken |
| `SchedModel.UntamedBreaks` | kernel/core/syscall.c:154-157 | wait's second assignment keeps the claim if and only if the process is current, and stopping if and only if it is not queued |
| `SchedRuns.IdleWaitRuns` | kernel/core/syscall.c:154-157 | waiting while no one is ready breaks it from every state |
| `SchedRuns.BootWaitBreaks` | kernel/core/syscall.c:154-157 | already from boot |
| `SchedRuns.TwoRunning` | kernel/core/scheduler.c:187-252 | and then a wake-up and a timer tick leave two processes running |
| `SchedRuns.StopBreaks` | kernel/core/signal.c:185-193 | a stop between wake-up and schedule leaves a stopped process in the ring |
| `SchedRuns.StoppedExactly` | kernel/core/process.c:547-556 | a step ends a stop if and only if it is process_wakeup of the process or its own exit |
| `SchedRuns.StoppedStays` | kernel/core/signal.c:91-121 | over every run: with no wake-up still to come, a stopped process stays stopped until a SIGCONT or its exit |
| `SchedRuns.RestartedWithoutCont` | kernel/core/signal.c:113-117 | a run in which a wake-up decided on before the stop ends it |
| `SchedModel.StepWaits` | kernel/core/scheduler.c:187-267 | every call of schedule brings a queued process closer, and no other step takes it further away |
| `SchedModel.BoundedWaiting` | kernel/core/scheduler.c:187-267 | a process at place k is picked within 10 * (k + 1) calls of schedule, whatever enqueues, yields, sleeps, stops and exits of others come between |
| `RoundRobin.KeepsProcessor` | kernel/core/scheduler.c:195-209 | until its slice is used up, calls of schedule change nothing about a running process but what is left of it |
| `RoundRobin.NobodyReady` | kernel/core/scheduler.c:195-231 | with nobody else ready a running process gets another ten ticks, and without one the processor idles |
| `RoundRobin.GivenUp` | kernel/core/scheduler.c:202-247 | a process that gave the processor up is followed at once by the head of the ring |
| `RoundRobin.OneTurn` | kernel/core/scheduler.c:187-252 | at the end of a slice the head of the ring runs with ten ticks, the others move up, and the process that ran goes last |
| `RoundRobin.Yields` | kernel/core/scheduler.c:261-267 | yielding is that at once, and with nobody else ready another ten ticks |
| `RoundRobin.EveryoneTen` | kernel/core/scheduler.c:187-252 | ticks 10k to 10k + 9 belong to number k of the line of current process and ring |
| `RoundRobin.AllTheWayRound` | kernel/core/scheduler.c:187-252 | with n others ready the state after 10 * (n + 1) ticks is the state before |
| `SchedModel.PicksRuns` | kernel/core/scheduler.c:208-247 | being picked is becoming the current process |
| `SchedRuns.WokenTooSoon` | kernel/core/wait_queue.c:66-79 | from every state with a lone current process, a run that loses it |
| `SchedRuns.LostForever` | kernel/core/scheduler.c:187-252 | a lost process is never picked again, in any run |
| `SchedRuns.HangsExactly` | kernel/core/scheduler.c:208-247 | a process comes to be current, ready and outside the ring if and only if schedule picks it while it is still current |
| `SchedRuns.LosesExactly` | kernel/core/scheduler.c:228-247 | a step loses a process if and only if it is a call of schedule that finds it so |
| `SchedRuns.RunLosesExactly` | kernel/core/scheduler.c:187-252 | the same over every run |
| `SchedRuns.BootRuns` | kernel/core/scheduler.c:187-252 | from boot: a run that breaks the claim, one that loses a process, one that ends a stop without SIGCONT |
| `Scheduler.Scheduler.constructor` | kernel/core/scheduler.c:46-53 | the boot state of the machine |
| `Scheduler.Scheduler.Enqueue` | kernel/core/scheduler.c:58-77 | the circular array appends, unless full |
| `Scheduler.Scheduler.PickNext` | kernel/core/scheduler.c:109-124 | takes the first |
| `Scheduler.Scheduler.Find` | kernel/core/scheduler.c:88-91 | the place of the first occurrence |
| `Scheduler.Scheduler.Dequeue` | kernel/core/scheduler.c:82-104 | takes the first occurrence out and keeps the order of the rest, across the wrap |
| `Scheduler.Scheduler.SwitchTo` | kernel/core/scheduler.c:142-155 | the bookkeeping of a context switch |
| `Scheduler.Scheduler.Schedule` | kernel/core/scheduler.c:187-252 | on the array, exactly the step of the machine |
| `Scheduler.Scheduler.Yield` | kernel/core/scheduler.c:261-267 | the step with the slice used up |
| `Rwlock.ExclusiveKept` | kernel/core/rwlock.c:39-205 | every step, also of sleepers woken early, keeps: readers and waiting count the threads there, at most one writer, and none beside readers |
| `Rwlock.RunExclusive` | kernel/core/rwlock.c:39-205 | for any number of threads and any interleaving |
| `Rwlock.AloneWriter` | kernel/core/rwlock.c:123-145 | no other thread holds the lock while one writes |
| `Rwlock.ReadersHeldBack` | kernel/core/rwlock.c:39-84 | readers only grow while no writer holds or waits |
| `Rwlock.EntersExactly` | kernel/core/rwlock.c:39-175 | a reader gets in if and only if no thread holds the lock for writing or waits to, a writer if and only if no thread holds it; a trylock that fails changes nothing |
| `Rwlock.JoinsLast` | kernel/core/wait_queue.c:34-82 | a writer that goes to sleep comes behind all who are asleep |
| `Rwlock.FirstWokenFirst` | kernel/core/wait_queue.c:125-158 | over every run without signals to sleepers: while a writer sleeps no writer behind it is woken |
| `Rwlock.ServedExactly` | kernel/core/rwlock.c:39-205 | of all steps but signals to sleepers, a late sleep alone leaves a free lock with a queued writer and no one awake to serve it, or a reader queued behind no one |
| `Rwlock.RunServed` | kernel/core/rwlock.c:39-205 | over every run: at every point a free lock with queued writers has a writer awake or a thread about to wake one, and readers queue only behind a writer, if and only if no sleep came after its wake |
| `Rwlock.Lock.constructor` | kernel/core/rwlock.c:19-29 | the fields of a new lock |
| `Rwlock.Lock.ReadSection` | kernel/core/rwlock.c:44-56 | the section of read lock that looks and takes does, on the fields, exactly that step of the protocol |
| `Rwlock.Lock.ReadUnlockSection` | kernel/core/rwlock.c:99-112 | the same for read unlock, which then wakes a writer if and only if the step says so |
| `Rwlock.Lock.WriteSection` | kernel/core/rwlock.c:128-144 | the same for write lock, counting the caller as waiting the first time |
| `Rwlock.Lock.WriteUnlockSection` | kernel/core/rwlock.c:187-194 | the same for write unlock |
| `Rwlock.Lock.LookAgainSection` | kernel/core/rwlock.c:197-204 | the same for its last part |
| `Rwlock.AtomicTimely` | kernel/core/rwlock.c:134-138 | none does if check and sleep are one step |
| `Rwlock.LateSleepStranded` | kernel/core/rwlock.c:134-138 | a run of the code in which one does, and the writer stays asleep beside a free lock |
| `Mutex.ExclusiveKept` | kernel/core/mutex.c:45-129 | every step keeps: the lock word says whether there is a holder, there is no second, and the owner field names it |
| `Mutex.RunExclusive` | kernel/core/mutex.c:45-129 | for any number of threads and any interleaving |
| `Mutex.SoleHolder` | kernel/core/mutex.c:45-129 | no two threads hold it |
| `Mutex.LocksExactly` | kernel/core/mutex.c:45-106 | lock and trylock get the mutex if and only if no thread holds it; a trylock that fails changes nothing |
| `Mutex.JoinsLast` | kernel/core/wait_queue.c:34-82 | a thread that goes to sleep comes behind all who are asleep |
| `Mutex.FirstWokenFirst` | kernel/core/wait_queue.c:125-158 | over every run without signals to sleepers: while a thread sleeps no one behind it is woken |
| `Mutex.WaitReturnsHolding` | kernel/core/condvar.c:47-84 | cond_wait is left only by taking the free mutex, as its only holder and recorded owner |
| `Mutex.ServedExactly` | kernel/core/mutex.c:45-129 | of all steps but signals to sleepers, a late sleep alone leaves a free mutex with sleepers and no one awake for it |
| `Mutex.RunServed` | kernel/core/mutex.c:45-129 | over every run: at every point a free mutex with sleepers has a thread awake for it or about to wake one, if and only if no sleep came after its wake; and every signal reaches all who wait, if and only if none falls between a waiter's unlock and its sleep |
| `Mutex.Lock.constructor` | kernel/core/mutex.c:26-34 | the fields of a new mutex |
| `Mutex.Lock.LockSection` | kernel/core/mutex.c:50-69 | the section of lock that looks and takes does, on the fields, exactly that step of the protocol |
| `Mutex.Lock.UnlockSection` | kernel/core/mutex.c:119-125 | the same for unlock |
| `Mutex.Lock.WaitSection` | kernel/core/condvar.c:52-71 | the same for the part of cond_wait that gives the mutex up |
| `Mutex.SignalReaches` | kernel/core/condvar.c:98-109 | a signal reaches a waiter if and only if it is not between giving up the mutex and falling asleep |
| `Mutex.ReachesExactly` | kernel/core/condvar.c:98-109 | a signal leaves no one waiting for it if and only if no one is in that gap |
| `Mutex.SignalWakes` | kernel/core/condvar.c:98-109 | cond_signal moves exactly the threads in the queue, so only one if and only if at most one waits |
| `Mutex.BothWoken` | kernel/core/condvar.c:98-109 | a run in which one signal wakes two |
| `Mutex.AtomicTimely` | kernel/core/mutex.c:53-58 | neither happens if check and sleep are one step |
| `Mutex.LateSignalMissed` | kernel/core/condvar.c:47-84 | a run in which a signal is missed |
| `Semaphore.RunBalanced` | kernel/core/mutex.c:154-239 | in every run the count is initial plus signals minus completed waits, and never negative |
| `Semaphore.TakesExactly` | kernel/core/mutex.c:171-215 | wait and trywait get through if and only if the count is positive, and take one |
| `Semaphore.SignalsCounted` | kernel/core/mutex.c:225-239 | over every run, every call of signal counts and nothing else does |
| `Semaphore.JoinsLast` | kernel/core/wait_queue.c:34-82 | a thread that goes to sleep comes behind all who are asleep |
| `Semaphore.FirstWokenFirst` | kernel/core/wait_queue.c:125-158 | over every run without signals to sleepers: while a thread sleeps no one behind it is woken |
| `Semaphore.ServedExactly` | kernel/core/mutex.c:171-239 | of all steps but signals to sleepers, a late sleep alone leaves a sleeper beside a count that no one awake will take |
| `Semaphore.RunServed` | kernel/core/mutex.c:171-239 | over every run: at every point, while any thread sleeps, at least count threads are awake to take it or on their way to wake one, if and only if no sleep came after its wake |
| `Semaphore.Counter.constructor` | kernel/core/mutex.c:154-161 | the count of a new semaphore |
| `Semaphore.Counter.WaitSection` | kernel/core/mutex.c:176-188 | the section of wait that looks and takes does, on the count, exactly that step of the protocol |
| `Semaphore.Counter.TrywaitSection` | kernel/core/mutex.c:204-215 | the same for trywait |
| `Semaphore.Counter.SignalSection` | kernel/core/mutex.c:230-235 | the same for signal |
| `Semaphore.AtomicTimely` | kernel/core/mutex.c:179-183 | none does if check and sleep are one step |
| `Semaphore.LateSleepStranded` | kernel/core/mutex.c:179-183 | a run of the code in which one does |
| `Pipe.Conserved` | kernel/core/pipe.c:73-213 | over any run what came out, then what is inside, is what was inside, then what went in |
| `Pipe.RunConserves` | kernel/core/pipe.c:73-278 | from a new pipe, and with balanced closes the state is the one the two counts call for |
| `Pipe.EndOfFile` | kernel/core/pipe.c:84-90 | a read of at least one byte returns none only when the writers are gone and everything written was delivered |
| `Pipe.EndIsFinal` | kernel/core/pipe.c:73-213 | after that no byte goes in or comes out |
| `Pipe.ReadGives` | kernel/core/pipe.c:73-132 | each outcome of a read exactly when the counts and the contents call for it; with bytes there it gives the smaller of what is asked for and what is there, from the front |
| `Pipe.WriteTakes` | kernel/core/pipe.c:146-213 | each outcome of a write exactly when they call for it; with room it takes the smaller of what is offered and what fits, at the back |
| `Pipe.ThereAndBack` | kernel/core/pipe.c:73-213 | up to 4096 bytes written into an empty pipe come back in one read |
| `Pipe.CloseReadMatches` | kernel/core/pipe.c:224-245 | closing keeps state and counts in step if and only if some end is still open |
| `Pipe.CloseWriteMatches` | kernel/core/pipe.c:257-278 | the same for the other end |
| `Pipe.CloseTwiceReopens` | kernel/core/pipe.c:224-245 | the case where it does not |
| `PipeRing.Ring.constructor` | kernel/core/pipe.c:37-59 | a new pipe is empty and open |
| `PipeRing.Ring.CopyOut` | kernel/core/pipe.c:109-121 | the chunked copy takes the first n bytes, across the wrap |
| `PipeRing.Ring.Read` | kernel/core/pipe.c:73-132 | on the ring, exactly the read of the byte stream: it gives bytes if and only if the read end is open and there are some, and then as many as asked for or all there are |
| `PipeRing.Ring.CopyIn` | kernel/core/pipe.c:190-202 | the chunked copy appends, across the wrap |
| `PipeRing.Ring.Write` | kernel/core/pipe.c:146-213 | on the ring, exactly the write of the byte stream: it takes bytes if and only if both ends are open and there is room, and then all of them or as many as fit |
| `PipeRing.Ring.CloseRead` | kernel/core/pipe.c:224-245 | the close of the read end |
| `PipeRing.Ring.CloseWrite` | kernel/core/pipe.c:257-278 | the close of the write end |
| `Descriptors.Apart` | kernel/drivers/virtio_blk.c:111-148 | a descriptor of a chain in flight is in no other chain and not free |
| `Descriptors.ChainDistinct` | kernel/drivers/virtio_blk.c:111-129 | a chain has no descriptor twice |
| `Descriptors.AddsUp` | kernel/drivers/virtio_blk.c:111-148 | free descriptors, three for each chain in flight, and lost ones add up to the queue's size |
| `Descriptors.RunDriven` | kernel/drivers/virtio_blk.c:111-254 | over every run of allocations, fills and frees: every descriptor is in one place, a filled chain keeps its flags, and the walk along the flags stops inside the chain, filled or not |
| `Descriptors.StepLoses` | kernel/drivers/virtio_blk.c:134-148 | a step loses what lies behind the first clear flag of the chain it frees, and nothing if and only if the chain has the flags of a filled one |
| `Descriptors.RunLosesNothing` | kernel/drivers/virtio_blk.c:111-254 | a run loses nothing if and only if every chain it frees has those flags |
| `Descriptors.TidyLosesNothing` | kernel/drivers/virtio_blk.c:202-291 | when every free follows its fill nothing is ever lost: free and in flight are the whole queue after every run |
| `Descriptors.SettledKept` | kernel/drivers/virtio_blk.c:202-291 | after one served request no request loses anything, whether its addresses translate or not |
| `Descriptors.RequestsLose` | kernel/drivers/virtio_blk.c:226-229 | over every sequence of requests: two descriptors are lost for each that failed to translate before the first that was served, until fewer than three are left; the queue is dead for good if and only if there were (size - 1) / 2 of them |
| `Descriptors.EightDies` | kernel/drivers/virtio_blk.c:226-229 | a queue of eight serves no request any more after three such |
| `Virtqueue.Queue.constructor` | kernel/drivers/virtio_blk.c:39-83 | all descriptors free, in order |
| `Virtqueue.Queue.Alloc` | kernel/drivers/virtio_blk.c:111-129 | takes the first count descriptors off the list, or fails exactly when there are fewer; every descriptor stays in one place; with three it is the step of Descriptors |
| `Virtqueue.Queue.Fill` | kernel/drivers/virtio_blk.c:231-254 | the three descriptors get the flags of a filled chain and no other flag changes; links of all other lists are kept |
| `Virtqueue.Queue.Free` | kernel/drivers/virtio_blk.c:134-148 | for a chain in which the walk stops: its part up to the first clear flag goes to the front of the free list, anything behind is lost, and every descriptor stays in one place |
| `Virtqueue.Queue.AddToAvail` | kernel/drivers/virtio_blk.c:153-162 | the n-th submission goes to the slot that its 16-bit index gives, which is n mod size if the size divides 65536; then the ring holds the last size submissions in those slots |
| `Virtqueue.SubmitHolds` | kernel/drivers/virtio_blk.c:153-162 | one more submission overwrites the oldest one's slot and no other of the last size |
| `Virtqueue.Queue.Run` | kernel/drivers/virtio_blk.c:111-254 | any run of allocations of three, fills with submission, and frees: the arrays follow the lists step by step, every walk stops, and when every free follows its fill nothing is lost and free plus in flight is the size |
| `Virtqueue.SlotsInStep` | kernel/drivers/virtio_blk.c:153-162 | for every n, across the wrap, the n-th submission is in slot n mod size, if and only if the size divides 65536 |
| `Virtqueue.PowersOfTwo` | kernel/drivers/virtio_blk.c:371-375 | as every power of two up to 65536 does |
| `Virtqueue.ThreeSlots` | kernel/drivers/virtio_blk.c:153-162 | a size for which it fails |

## Left out

- In-place update of disk blocks, inode structs, page tables and frames: the operations on them take and return values, so aliasing between the C pointers is not captured.
- Failures of the disk and of `kmalloc` in the middle of an operation, and the clean-up after a failed fork or a failed `create_user_page_table` (which hands a page to `kfree` that did not come from `kmalloc`).
- Wait queues as linked lists: the protocols keep them as sequences, and a wake is one step.
- Preemption inside `pipe_read` and `pipe_write`: a call's copying is one step there, since the code does not turn interrupts off.
- Triple-indirect blocks, timestamps, block counts of inodes, and write-back of superblock and group descriptors.
- Directories of 65536 bytes and more; link counts beyond 16 bits; freeing inode 1.
- Opening, closing and duplicating descriptors in the VFS, permissions, `sbrk`, `mmap`, process groups and sessions.
- The argument vector on a new program's stack, ELF loading, and signal handlers in user mode.
- Devices: MMIO, the used ring as the device writes it, interrupts as hardware, TLB flushes, memory barriers, display and console.
- Directory bytes stored through the block engine: `Ext2Namespace` keeps each directory's bytes as a value and `Ext2Volume` keeps files by inode number, so creating and removing names on a disk that is full in the middle of the operation is not modelled; there the code drops the directory's inode (kernel/fs/ext2_write.c:469-475), and a pointer block it had already hung in stays marked and unreachable.
- Interrupts inside `process_wakeup` between its two statements: making a process ready and queueing it is one step.
- Paths of more than 255 bytes with the working directory: they are cut, as in the code, and the statements about resolution are about the cut text.
- Ext2Volume.Volume.Create: takes the inode number as given; choosing and marking it is in Ext2Namespace.
- Ext2Dir.AddEntry: for directories of whole blocks, which is what this code makes.
- Ext2Dir.RemoveEntry: for entries that all have an inode; one that lost it is not read again.
- Ext2Namespace.FreeInode: not for inode 1, which is reserved.
- Ext2Namespace.FileSystem.Create: assumes that the write of the parent's directory bytes succeeds, and requires room below 64 KiB in the directory.
- Ext2Namespace.FileSystem.RemoveFile: the directory number is 0 or a live inode's; the record a removed inode leaves behind is not modelled.
- Ext2Namespace.FileSystem.RemoveDir: the same.
- Ext2Namespace.FileSystem.Run: an operation on a directory number that is not live, or that would take a directory to 64 KiB, is skipped.
- AddressSpace.MapPage: for a user root the address is below 0x80000000; above, the code would write into tables shared with the kernel.
- AddressSpace.UnmapPage: the same restriction.
- Fork.ForkMemory: the pages of the kernel stack, of the trap frame and of the process record are not modelled; the page of each region's list node is.
- Rwlock.RunServed: for runs without signals to sleepers, whose queue entries stay behind when they leave; exclusion is proved with them.
- Mutex.RunServed: the same.
- Rwlock.FirstWokenFirst: the same.
- Mutex.FirstWokenFirst: the same.
- Semaphore.FirstWokenFirst: the same.
- Semaphore.RunServed: the same.
- Virtqueue.Queue.Free: for chains in which the walk stops, which every chain of three is by Descriptors.RunDriven; a shorter chain with old flags would lead it into the free list, but the driver makes none.
- UserTables.CreateUser: with one to three free frames the code calls `kfree` on the new root, which has no header (kernel/mm/paging.c:410-429); the model only stops.
- Mutex.Lock.LockSection: the caller is a process; without a current process the code locks and records no owner.
- Kmalloc.Heap.Free: for NULL and for blocks in use with an intact header; the panic on a bad magic number is not modelled.
