# K64 kernel: storage, memory, scheduling, messages, processes and network

K64 is a small x86_64 kernel. This project models its internal state machines in Dafny and proves what they are
meant to guarantee:

- **K64XFS storage.** The 64-entry write-back cache refines a plain block array. The metadata journal recovers, after
  a crash between any two writes, nothing or exactly the last committed transaction, and it is stated exactly when this
  still holds on the journal an earlier mount left behind; a committed transaction is durable whatever the cache had
  evicted, and it is stated exactly what of it a following one undoes. The file operations keep the structural invariant of the volume, and a written file
  reads back as written with everything else unchanged; carried out by the block layer on clean metadata, they survive a
  crash. The consistency check passes exactly the healthy volumes, and
  the images made by the host-side builder are exactly the trees they were made from.
- **Memory.** The frame bitmap is balanced. Mapping a page changes that page of that address space and nothing else,
  even through split 1 GiB and 2 MiB pages; spaces are isolated; every frame is accounted for over every run, also when
  making a space fails half-way; a mapped range reads as the file and zeros. A page, a range, a space or a program is
  mapped if and only if the frames for it and for the tables that are missing before are there.
- **Scheduling.** A ready task runs within a fixed number of ticks, and a sleeper sleeps exactly as long as it asked to.
- **Nested execution.** Service messages and dispatches match one to one; the caller of every call gets the bytes of the
  reply to it. No process is entered twice; every exit code reaches the parent that waits, once, and none is lost.
- **Network.** The response buffer is a prefix of the peer's stream whatever the segments, and all of it when they come in
  order; every packet sent verifies.

Code that changes state step by step is modelled by classes and loops, each proved against a function or a relation on
plain values; the theorems over whole runs are about those.

| files | model of |
|---|---|
| Blocks, Cache, Journal, JournalLayout, Mount, Recovery, Remount | `k64_block.c`, `k64_xfs_cache.c`, `k64_xfs_journal.c` |
| Bitmap, FileSystem, FileSteps, FileEffects, Paths, Encoding, InodeLayout, Files, Storage, Check | `k64_xfs.c`, `k64_xfs_format.h` |
| Image, Builder | `tools/mk_k64xfs.py` |
| Pmm, PageTables, TableNeeds, AddressSpaces, Worlds, UserMemory, SpaceRuns, Provisions, Vmm | `k64_pmm.c`, `k64_vmm.c` |
| Scheduler, TaskRuns | `k64_sched.c` |
| Scanning, Messages, Processes, Exits | `k64_system.c`, `k64_usermode.c` |
| Tcp, Checksum | `k64_net.c` |

`dafny verify dfyconfig.toml` checks the whole project.

## What the code does that one might not expect

- A block read that fails while a directory is searched counts as "name not there" (k64_xfs.c:279-281, 314), so a
  create can succeed for a name that exists. `Files.Xfs.DirAdd` and `Files.Xfs.CreateAt` state exactly when this breaks
  the invariant, and `Files.MadeTwice` shows such a run: the two reads that look for the name fail, all else succeeds.
- A volume that was unmounted cleanly is mounted without recovery, so old journal headers stay, while transaction numbers
  start over (k64_xfs.c:659, 677-680). An old commit header can complete a new transaction that was cut off:
  `Remount.UncommittedIsReplayed`. `Remount.FaithfulIff` says exactly which old headers are harmless.
- A journal header that does not read ends the recovery scan like an invalid one; nothing is replayed and the journal is
  then cleared (k64_xfs_journal.c:70-72, 103-108), so one failed read drops a committed transaction for good:
  `Recovery.Recover`, `Recovery.CommitDropped`.
- The first record of the next transaction overwrites the header of the committed one, which from then on is no longer
  replayed, and no file operation flushes the cache (k64_xfs.c:764-844). Two operations in a row lose the first one's
  metadata in a crash unless the second wrote it too: `Mount.JournalledMount.TwoTransactions` is exact about it and
  `Mount.FirstOperationLost` is such a run.
- Splitting a 1 GiB page at or above 2^48 loses address bits (k64_vmm.c:117-129): `PageTables.HighGibSplitChangesWalk`.
- An existing table keeps its flags when a user page is mapped below it (k64_vmm.c:141-146), so the user sees the page
  exactly if every table on the way already admitted the user: `PageTables.Maps`.
- Page tables below the first directory are shared with the kernel and all spaces, and so is everything behind the other
  entries of the kernel's root. A page whose walk passes such a table is visible to the kernel once mapped; any other page,
  in whatever slot of the root, is the space's own. `Vmm.AddressSpacePool.MapPage` states both directions.
- A table made below one of the kernel's hangs in the kernel's tables and is freed with the space, for pid 0 (which uses
  the kernel's root) and for any other: `SpaceRuns.PidZeroLeavesDangling`, and exactly when in
  `Vmm.AddressSpacePool.MapAndRelease` and `Vmm.AddressSpacePool.PidZeroRound`.
- A range whose 64-bit end wraps maps nothing and reports success (k64_vmm.c:388-391): `Vmm.AddressSpacePool.MapRange`.
- Sequence numbers are compared without regard to wrap (k64_net.c:814). The response stays a prefix even so, because a
  segment that compares wrongly is too far away to overlap: `Tcp.Compared`.

## Model

| member | source | states |
|---|---|---|
| `Blocks.Device.Read` | k64_block.c:119-127 | a request outside the device or picked to fail changes nothing; any other returns the block |
| `Blocks.Device.Write` | k64_block.c:129-137 | one atomic block write, or no change |
| `Cache.BlockCache.Find` | k64_xfs_cache.c:37-44 | finds the entry of a block exactly when one is valid |
| `Cache.BlockCache.Victim` | k64_xfs_cache.c:46-66 | the slot is the first invalid one or, if there is none, the least recently used, written home if dirty; nothing shown changes, and a failed write leaves the cache as it was |
| `Cache.BlockCache.Read` | k64_xfs_cache.c:68-87 | returns the shown contents, shows the same afterwards, touched block becomes the most recent |
| `Cache.BlockCache.Write` | k64_xfs_cache.c:89-108 | success shows the new contents for that block only; failure shows what it showed; as long as fewer blocks were used than there are entries it succeeds and writes nothing home |
| `Cache.RoomLeft` | k64_xfs_cache.c:46-66 | fewer uses than entries leave an entry free |
| `Cache.BlockCache.Flush` | k64_xfs_cache.c:110-123 | success makes the device equal to what is shown; failure changes nothing shown |
| `Cache.BlockCache.Run` | k64_xfs_cache.c:37-123 | over every sequence of reads, writes and flushes with any failures, reads and final contents are those of a plain block array |
| `Cache.EvictKeepsConsistent` | k64_xfs_cache.c:46-66 | replacing the least recently used entry keeps the valid entries the most recently touched distinct blocks |
| `Cache.TouchKeepsConsistent` | k64_xfs_cache.c:74-86 | a use puts one block at the front of the recency order and keeps the rest |
| `Cache.TouchKeepsPacked` | k64_xfs_cache.c:74-86 | nothing is thrown out while there is room |
| `Cache.CleanKeepsView` | k64_xfs_cache.c:110-123 | writing a dirty entry home leaves every block shown as before |
| `Journal.StepKeepsInv` | k64_xfs_journal.c:115-189 | every single journal write keeps the described state of the journal area |
| `Journal.CommittedIsLast` | k64_xfs_journal.c:67-91 | what the scan finds in any reachable area: nothing while a transaction has touched it, else the transaction committed last |
| `Journal.CrashRecovery` | k64_xfs_journal.c:57-189 | from a zeroed journal, after any run and a crash between any two writes, recovery writes home nothing or exactly the records of the transaction committed last |
| `Remount.FaithfulIff` | k64_xfs.c:653-683 | from any journal area: over the first n transactions of a mount recovery finds at every crash point what it should, if and only if no old commit header of a number up to n lies behind the first header slot |
| `Remount.RemountRecovery` | k64_xfs_journal.c:57-189 | without such a header, what recovery does to the device after any run on an old journal |
| `Remount.UncommittedIsReplayed` | k64_xfs.c:653-683 | the failing case of a clean remount: as many records as the old transaction had, and recovery replays a transaction that was never committed |
| `Remount.AttemptRuns` | k64_xfs_journal.c:115-159 | the failing runs are runs of the code, for any transaction number and any records |
| `Journal.LastRecordWins` | k64_xfs_journal.c:92-102 | replay leaves each block with its last record, and blocks without one alone |
| `Journal.RecoveryRestarts` | k64_xfs_journal.c:92-102 | a crash while records are replayed: recovering again gives the same image |
| `Journal.ClearedJournalIsInert` | k64_xfs_journal.c:103-108 | once clearing the journal has begun nothing is replayed |
| `Journal.ScanFindsNothing` | k64_xfs_journal.c:67-91 | without the commit header of its transaction a scan finds nothing |
| `JournalLayout.HeaderRoundTrip` | k64_xfs_journal.c:8-55 | decoding an encoded header gives the header, for any checksum function |
| `JournalLayout.LayoutIsLawful` | k64_xfs_format.h:99-107 | the packed little-endian layout is one the journal theorems hold for |
| `Recovery.FindCommitted` | k64_xfs_journal.c:67-91 | the scanning loop finds what the specification finds; a header that does not read ends the scan |
| `Recovery.Recover` | k64_xfs_journal.c:57-113 | the loops compute the specified image and clear the journal; a failed recovery leaves a prefix of the records replayed, or a prefix of the journal cleared; if of all requests just one header read of a committed transaction fails, recovery succeeds, replays nothing and clears the journal |
| `Recovery.CommitDropped` | k64_xfs_journal.c:57-113 | that run on a device whose journal holds a committed transaction: no home block changes and the next recovery finds nothing |
| `Mount.JournalledMount.Begin` | k64_xfs_journal.c:115-127 | opens a transaction once; from a synced cache all metadata is protected |
| `Mount.JournalledMount.Record` | k64_xfs_journal.c:129-159 | header and payload go to the journal as one more record, or the transaction is as before |
| `Mount.JournalledMount.Commit` | k64_xfs_journal.c:161-189 | writes the commit header; home blocks and what the cache shows stay; afterwards metadata survives a crash exactly if it was in step with the records |
| `Mount.JournalledMount.CommitIsDurable` | k64_xfs_journal.c:57-189 | after a commit, recovery from the device alone gives every metadata block what the cache shows if and only if that is its last record or, without one, the block on the device |
| `Mount.JournalledMount.WritingHomeKeepsDurable` | k64_xfs_cache.c:46-66 | an eviction writing a metadata block home does not change what recovery gives |
| `Mount.JournalledMount.BlockWrite` | k64_xfs.c:65-77 | metadata writes go to the journal first; protection and durability survive evictions |
| `Mount.JournalledMount.Transaction` | k64_xfs.c:65-77 | begin, any reads, writes and flushes, commit: what is recorded and shown; a crash after it loses no metadata if and only if the blocks without a record were in step with the device; clean metadata at begin is enough; few operations without a fault succeed and write nothing home |
| `Mount.JournalledMount.TwoTransactions` | k64_xfs.c:764-844 | two operations in a row without a flush or a fault: the first is safe once committed; after the second a crash keeps it if and only if the second wrote all metadata the first had changed |
| `Mount.FirstOperationLost` | k64_xfs.c:764-844 | the shortest such run that loses the first operation |
| `Mount.JournalledMount.FlushAll` | k64_xfs_cache.c:110-123 | a flush puts all metadata in step and keeps protection and durability |
| `Bitmap.FindRun` | k64_xfs.c:182-215 | first fit: the lowest run of clear bits of that length, or proof that there is none |
| `Bitmap.Unmark` | k64_xfs.c:217-230 | clears a run and counts exactly the bits that were set |
| `Bitmap.ClearRunCounts` | k64_xfs.c:182-215 | marking a clear run of n bits lowers the free count by n |
| `Paths.SplitParent` | k64_xfs.c:389-424 | parent and leaf have together the components of the path; succeeds exactly for the well-formed paths |
| `Paths.Tokenize` | k64_xfs.c:456-465 | tokens of a path string are its components |
| `FileSystem.PathsUnique` | k64_xfs.c:426-481 | two paths that lead to one inode are the same path |
| `Files.Xfs.AllocInode` | k64_xfs.c:156-171 | takes a free number and marks it; fails only for a failed request, a full journal or a full table |
| `Files.Xfs.AllocExtent` | k64_xfs.c:182-215 | takes the lowest run that was clear and keeps the free count right; fails without fault or full journal only if there is none |
| `Files.Xfs.FreeExtent` | k64_xfs.c:217-230 | clears the run and keeps the free count right |
| `Files.Xfs.DirFind` | k64_xfs.c:264-303 | finds the entry of a name; a miss means there is none, unless a read failed; a failed first read always hides the name |
| `Files.Xfs.DirAdd` | k64_xfs.c:305-369 | adds an entry, growing the directory if needed; names stay unique if and only if the name was free; refused only for a bad or present name, a directory that cannot take it, a full journal or a fault; at most two records |
| `Files.Xfs.DirRemove` | k64_xfs.c:371-387 | clears exactly the slot of that name; fails without fault or full journal only if the name is missing; at most one record |
| `Files.Xfs.Resolve` | k64_xfs.c:426-481 | walking the path string computes the path semantics, both for found and for missing |
| `Files.Xfs.CreateAt` | k64_xfs.c:510-557 | structure kept; the invariant holds afterwards if and only if the path was not there, and then exactly one path is added, to an inode with the bit of its type and twelve bits of the mode, the given owners and the number of the transaction; every other inode keeps kind, mode and owners, and no block is lost; without a fault it succeeds if and only if the path is well formed and missing from a directory that is there, with an inode, blocks and a slot to be had; at most six records |
| `Files.Xfs.Create` | k64_xfs.c:770-774 | as creation with mode 0644 octal for mode 0, as one journal transaction; on an idle journal without a fault it succeeds if and only if the path can be made; two failed reads at the right places make it succeed for a name that is there |
| `Files.MadeTwice` | k64_xfs.c:305-369 | that run exists: on a volume with the file, create succeeds and the invariant is gone |
| `Files.Xfs.Mkdir` | k64_xfs.c:764-768 | likewise for a directory with one empty block, with mode 0755 octal for mode 0 |
| `Files.Xfs.FreeFileExtents` | k64_xfs.c:776-787 | releases exactly the blocks of the file |
| `Files.Xfs.ReplaceContents` | k64_xfs.c:803-841 | the file reads as the data and has the given owners, its mode stays; all other files, modes and owners as before, names unchanged, no block lost, at most ten journal records |
| `Files.Xfs.WriteFile` | k64_xfs.c:789-844 | the path reads as exactly the data and has the given owners, with its old mode or, for a new file, 0644 octal; every other path, file, mode and owner is as before and no block is lost, with the invariant, if and only if no request failed or the path was not there; an existing file is refused only for lack of room, a new one only if it cannot be made or for lack of room |
| `Files.Xfs.ReadFile` | k64_xfs.c:846-876 | returns the contents of the file at the path up to the given length; fails without a fault only if there is none |
| `Files.Xfs.Remove` | k64_xfs.c:899-920 | success: the path was a regular file, is gone, every other path and file is as before and the invariant holds; without a fault a well-formed path is refused only if no file is there; its at most eleven records always fit |
| `Files.Xfs.Rmdir` | k64_xfs.c:922-952 | success: the path led to an empty directory of one block, is gone, all else as before and the invariant holds; without a fault refused only if it did not |
| `Files.Xfs.Format` | k64_xfs.c:559-651 | block by block: zeroed metadata, bitmaps, root inode with mode 0755 octal and owner 0, root block; an empty root directory and, where one bitmap block is enough, the invariant and no lost block; fails only for a fault or a device too small or too large |
| `FileSteps.RewriteKeepsInv` | k64_xfs.c:789-844 | giving one regular file new extents keeps the structure, other files and the names |
| `FileSteps.AdoptKeepsInv` | k64_xfs.c:510-541 | a new inode without an entry keeps the structure |
| `FileSteps.DropKeepsInv` | k64_xfs.c:899-952 | an inode without an entry and its blocks can go |
| `FileSteps.LinkKeepsSound` | k64_xfs.c:305-369 | an entry for the new inode completes the structure |
| `FileSteps.UnlinkKeepsInv` | k64_xfs.c:371-387 | taking out an entry leaves its inode the only one without |
| `FileSteps.GrowKeepsSound` | k64_xfs.c:342-368 | a directory may get one more block of free slots |
| `FileSteps.RewriteLosesNone` | k64_xfs.c:776-841 | new contents leave no block marked that nobody owns |
| `FileSteps.AdoptLosesNone` | k64_xfs.c:510-550 | nor does a new inode |
| `FileSteps.DropLosesNone` | k64_xfs.c:899-952 | nor does the end of one |
| `FileEffects.ReadsBack` | k64_xfs.c:846-876 | the chunks written to a run of blocks read back as the data |
| `FileEffects.ChunksFit` | k64_xfs.c:806-836 | a file takes the blocks its bytes need and no more, and zeros fill the last one |
| `Encoding.OneWriteMore` | k64_xfs.c:91-230 | a metadata block write changes what is read from that block only |
| `Encoding.EncodedReads` | k64_xfs.c:91-113 | from blocks that hold the metadata of a volume its bitmaps and inode table are read |
| `Encoding.StoredExactly` | k64_xfs_format.h:32-60 | a record keeps an inode exactly if its fields are within their widths |
| `InodeLayout.BitsRoundTrip` | k64_xfs.c:79-89 | a bitmap reads back from its block |
| `InodeLayout.RecordRoundTrip` | k64_xfs_format.h:40-60 | an inode record reads back with its fields cut to their widths, for any checksum and any value of the other fields |
| `InodeLayout.InodesRoundTrip` | k64_xfs.c:91-142 | so do the eleven records of a block of the inode table |
| `InodeLayout.DiskLayoutIsLawful` | k64_xfs_format.h:32-60 | the layout of the disk is one the guarantees about metadata hold for |
| `Storage.Persist` | k64_xfs.c:65-77 | the block writes of a file operation as a transaction that starts on clean metadata: after it the cache shows the metadata of the result, and from the device after a crash and recovery its bitmaps and inode table are read; it succeeds on a reliable device where cache and journal have room |
| `Storage.OperationSurvives` | k64_xfs.c:764-952 | create, mkdir, overwrite, remove and rmdir over the journalled block layer: the effect a user sees or the reason for the refusal; once committed, a crash and recovery give the bitmaps and the inode table of the result; on a reliable device with room in the cache it commits |
| `Storage.FirstFileSurvives` | k64_xfs.c:559-774 | from a new volume on a reliable device, with any lawful layouts: a file is made with its mode and owners and committed, and a crash with recovery gives the metadata with it |
| `Check.CheckBlocks` | k64_xfs.c:1062-1078 | no error exactly when all blocks of the extent are marked and unseen; they are seen afterwards |
| `Check.CheckInodes` | k64_xfs.c:1033-1083 | no error exactly when used inodes are valid and all extents in range, marked and pairwise disjoint |
| `Check.CheckVolume` | k64_xfs.c:1002-1105 | reports ok if and only if the volume is healthy; the 32-bit error count cannot wrap |
| `Check.InvariantIsHealthy` | k64_xfs.c:1002-1105 | every volume with the structural invariant passes the check |
| `Builder.ImageBuilder.AllocBlocks` | tools/mk_k64xfs.py:129-138 | takes the next blocks and marks them, or fails when they do not fit |
| `Builder.ImageBuilder.NumberEntries` | tools/mk_k64xfs.py:187-190 | entry number c gets inode c + 1; fails exactly above 512 entries |
| `Builder.ImageBuilder.LinkEntries` | tools/mk_k64xfs.py:192-198 | each directory lists exactly its children in order; fails exactly for a bad name |
| `Builder.ImageBuilder.PlaceEntry` | tools/mk_k64xfs.py:200-227 | one entry gets its blocks, contents, extents and inode, or fails exactly when it does not fit |
| `Builder.ImageBuilder.Build` | tools/mk_k64xfs.py:187-230 | succeeds if and only if the tree respects the inode, name, directory and block limits, and then holds the tree |
| `Image.BuiltInv` | tools/mk_k64xfs.py:96-276 | the image of every tree that fits satisfies the structural invariant |
| `Image.PathResolves` | k64_xfs.c:426-481 | the kernel lookup takes the path of every entry to its inode |
| `Image.OnlyPathsResolve` | k64_xfs.c:426-481 | no other path leads anywhere |
| `Image.FileReadsBack` | k64_xfs.c:846-876 | reading a file of the image back gives the original data |
| `Image.ImageIsTree` | tools/mk_k64xfs.py:121-276 | invariant, lookup, types, modes, owners and read-back together: the image is the tree and nothing else |
| `Image.NothingWasted` | tools/mk_k64xfs.py:121-186 | every entry takes the blocks its bytes or its children need and no more |
| `Pmm.FrameAllocator.Alloc` | k64_pmm.c:97-106 | takes the lowest free frame, fails exactly when none is free, lowers the number of free frames by one, keeps clear bits plus used frames constant |
| `Pmm.FrameAllocator.FindContiguous` | k64_pmm.c:108-138 | skipping past a taken frame misses no run: the first free run or none |
| `Pmm.FrameAllocator.AllocContiguous` | k64_pmm.c:108-138 | marks exactly that run; refuses a length of zero or above the limit |
| `Pmm.FrameAllocator.Free` | k64_pmm.c:140-146 | clears a taken frame once; a frame not taken stays |
| `Pmm.FrameAllocator.FreeContiguous` | k64_pmm.c:148-158 | clears exactly the frames of the run |
| `Pmm.FrameAllocator.Reserve` | k64_pmm.c:28-42 | takes exactly the free frames that overlap the byte range |
| `PageTables.ExtendKeepsWalks` | k64_vmm.c:98-154 | an absent entry made a table, or a large page split, changes no translation of anyone, with or without the user requirement |
| `PageTables.HighGibSplitChangesWalk` | k64_vmm.c:117-129 | splitting a 1 GiB page keeps its translation if and only if it lies below 2^48 |
| `PageTables.LeafWalk` | k64_vmm.c:501-549 | the new last-level entry is seen by exactly the walks that reach that table and index |
| `PageTables.ExtendKeepsUnaliased` | k64_vmm.c:98-154 | no table becomes reachable in two ways |
| `AddressSpaces.WindowsDisjoint` | k64_vmm.c:262-279 | windows of live spaces are disjoint and inside the pool |
| `AddressSpaces.StaysInside` | k64_vmm.c:193-223 | a walk passes only tables of the owner of its root and of the kernel |
| `AddressSpaces.CloneNew` | k64_vmm.c:193-223 | a new root translates like the kernel, through a first directory of its own |
| `AddressSpaces.FreeUserReady` | k64_vmm.c:137-154 | in a user space a page whose tables are all its own is open to the user once mapped for the user |
| `Vmm.AddressSpacePool.Take` | k64_vmm.c:71-96 | takes and lists a frame exactly if one is free and the list has room, or gives it back when the list is full; every set bit stays accounted for |
| `Vmm.AddressSpacePool.AddTable` | k64_vmm.c:98-135 | a new table: empty, or the pieces of the large page |
| `Vmm.AddressSpacePool.NextTable` | k64_vmm.c:137-154 | the next table on the walk, nobody translates differently |
| `Vmm.AddressSpacePool.MapPage` | k64_vmm.c:156-191 | succeeds if and only if the space has a root, no large root entry is in the way, and the tables the walk lacks, counted on the tables before, are at most the free frames and the room in the list; success: that page has the given entry and translates to the frame (for the user exactly if asked for and the tables admit it) and no other page of the space changes; failure: no translation of anyone changes; where every table on the walk is the space's own nobody else sees a difference, and where one is not the kernel sees the new frame |
| `Worlds.WayNew` | k64_vmm.c:98-187 | a table made on the way down: how many are missing below it, and that only walks which share it became longer |
| `TableNeeds.NeededJoin` | k64_vmm.c:396-434 | two lists of pages take together what the first takes and then the second, each table counted once |
| `TableNeeds.AlongCovers` | k64_vmm.c:156-191 | after a mapping exactly the tables on the walk of the page are reached besides those reached before |
| `TableNeeds.NeededTogether` | k64_vmm.c:281-291 | pages under one last table take what the first of them takes |
| `Vmm.AddressSpacePool.CloneKernelRoot` | k64_vmm.c:193-223 | root and first directory copied into two frames of the space if and only if the kernel has a first directory and two frames are to be had; else only frames listed |
| `Vmm.AddressSpacePool.MapFresh` | k64_vmm.c:225-241 | a fresh frame with the given contents, listed and mapped, if and only if there are frames for it and for the missing tables |
| `Vmm.AddressSpacePool.FindSlot` | k64_vmm.c:262-269 | linear probing: the first free window from the one of the pid, or all are used |
| `Vmm.AddressSpacePool.AllocSpace` | k64_vmm.c:243-294 | a space is made if and only if a window is free and there are frames for root, directory, stack and the tables the kernel's walk to the stack lacks; success: window, root, zeroed stack that a user space's user reaches too, others undisturbed; failure at any step: same spaces, same bitmap, same windows as before |
| `Provisions.StackNeeds` | k64_vmm.c:281-291 | a space takes 66 frames and the tables that the kernel's walk to the first page of the stack lacks |
| `Provisions.CloneCovers` | k64_vmm.c:193-223 | the copied root reaches what the kernel's root reaches |
| `Vmm.AddressSpacePool.Release` | k64_vmm.c:347-373 | frees each frame taken for the space once, its window too, and nothing else |
| `Worlds.ReleasedStructured` | k64_vmm.c:347-373 | no translation of any other space or of the kernel changes when a space nobody points into is released |
| `Worlds.ReleaseKeepsTypedIff` | k64_vmm.c:347-373 | releasing a space leaves every pointer leading to a table if and only if no table of anyone else points to one of the space |
| `SpaceRuns.PidZeroLeavesDangling` | k64_vmm.c:243-373 | a space of pid 0, one mapping that splits a large page of the kernel, release: the kernel's directory points to a freed frame |
| `Vmm.AddressSpacePool.MapAndRelease` | k64_vmm.c:156-191 | one mapping and the release of its space, for any space nobody points into: no pointer is left behind if and only if no table had to be made or the last table on the walk was the space's own (with isolation: all tables on it were) |
| `Vmm.AddressSpacePool.PidZeroRound` | k64_vmm.c:243-373 | for pid 0: if and only if the kernel's walk of the page already reaches a last table, or none can be had |
| `Worlds.BottomOwner` | k64_vmm.c:156-191 | the last table on the walk of a page is the space's own exactly if all are |
| `Worlds.HookedIff` | k64_vmm.c:156-191 | a mapping makes others' tables point into the space exactly if new tables hang from one of theirs |
| `Worlds.Unmade` | k64_vmm.c:243-294 | making a space and releasing it leaves spaces and held frames as they were |
| `Vmm.AddressSpacePool.FillPage` | k64_vmm.c:408-426 | a page of a range: file bytes where the file reaches, zeros elsewhere |
| `Vmm.AddressSpacePool.MapRange` | k64_vmm.c:375-450 | succeeds if and only if no large root entry is in the way and there are frames for the pages and for the tables their walks lack, each counted once; in a user space the user then reads at every address of the rounded range the file byte or zero; a range whose end wraps maps nothing and succeeds |
| `Vmm.AddressSpacePool.ReadUser` | k64_vmm.c:551-577 | succeeds exactly when no overflow and every byte is reachable by the user, and returns those bytes |
| `Vmm.AddressSpacePool.WriteUser` | k64_vmm.c:579-605 | succeeds exactly when no overflow and every byte is reachable by the user; stores page by page up to the first unreachable page |
| `UserMemory.StoredIff` | k64_vmm.c:579-605 | a store succeeds if and only if every page it touches is reached, and no frame of another page changes |
| `UserMemory.StoredUpTo` | k64_vmm.c:579-605 | a store that fails has stored exactly what goes to the pages before the first unreachable one |
| `UserMemory.RangeReadsBack` | k64_vmm.c:551-605 | in a mapped range a store succeeds, what is stored is read back and every other byte stays |
| `Vmm.AddressSpacePool.Run` | k64_vmm.c:243-434 | over every sequence of making, mapping and releasing: frames accounted for, counters balanced, no table of the kernel or of an unnamed space translates differently |
| `Vmm.AddressSpacePool.RunAny` | k64_vmm.c:243-434 | every sequence of making, mapping and releasing, for every pid and range, up to the first release that leaves a pointer behind: tables sound until then, every frame accounted for throughout; a space so released was pointed into |
| `Vmm.AddressSpacePool.RunFrames` | k64_vmm.c:71-373 | conservation of frames alone, whatever the tables say |
| `Vmm.NothingLeft` | k64_vmm.c:347-373 | with no space left exactly the frames of the rest of the kernel are taken |
| `Vmm.AddressSpacePool.MakeUserImage` | k64_vmm.c:343-450 | a new user space with a program, made if and only if the range is not empty, a window is free and the frames for the space, the program and all missing tables are there, counted on the tables before; at every address of the rounded range the user reads the file byte or zero; all other spaces and the kernel undisturbed, whatever fails |
| `Vmm.FirstProgram` | k64_vmm.c:296-450 | on a machine with 4 MiB after booting, every program of up to 64 KiB loads and the user reads it byte for byte |
| `Worlds.KernelShares` | k64_vmm.c:156-191 | a table on the walk of a page that is not the space's own lies on the kernel's walk of that page too |
| `Worlds.PrivateIsFree` | k64_vmm.c:193-223 | what can be told from the kernel's tables alone: pages it keeps no table for, in any slot of the root, are free of foreign tables |
| `SpaceRuns.WindowsPrivateIff` | k64_vmm.c:243-294 | the windows are private if and only if directory entries 4 to 7 of the kernel hold no table |
| `Scheduler.TaskScheduler.OnTickAccounting` | k64_sched.c:91-112 | the loop accounts every task: due sleepers wake, the running task is charged, ready ones age |
| `Scheduler.TaskScheduler.PickNext` | k64_sched.c:206-244 | the scan picks a task as the specification allows (highest priority plus age in ring order) and keeps the ring well formed |
| `Scheduler.TaskScheduler.HandleTimer` | k64_sched.c:246-285 | a timer tick is a tick of the specification: accounting and, when the slice is over or the task cannot go on, a pick |
| `Scheduler.TaskScheduler.Create` | k64_sched.c:159-196 | creating a task is the creation step: one new ready task in the ring; without memory the ring stays, and without a stack an id is used up |
| `Scheduler.TaskScheduler.Sleep` | k64_sched.c:293-300 | sleeping is the sleep step: not ready until its tick |
| `Scheduler.TaskScheduler.Wake` | k64_sched.c:311-317 | waking is the wake step: only a blocked task changes, to ready |
| `Scheduler.TaskScheduler.Stop` | k64_sched.c:319-325 | stopping is the stop step |
| `Scheduler.TaskScheduler.ExitCurrent` | k64_sched.c:114-118 | exiting is the exit step, for the bootstrap task too |
| `Scheduler.StepKeepsWellFormed` | k64_sched.c:91-325 | every step keeps the ring well formed |
| `Scheduler.TickPicks` | k64_sched.c:206-244 | a pick runs the waiting task or brings it strictly closer, by the measure that counts rivals that may still precede it |
| `Scheduler.NoStarvation` | k64_sched.c:40-285 | a ready task left alone runs within 5 * 1024 + 1 + 7 * (n + 1) ticks |
| `TaskRuns.SleepsExactly` | k64_sched.c:91-112 | a task that sleeps for n ticks and is left alone is blocked in every later state until max(n, 1) ticks have passed, and at the last of them it is ready or already picked |
| `TaskRuns.SleeperRuns` | k64_sched.c:91-300 | a sleeper runs within max(n, 1) ticks and the bound for ready tasks |
| `TaskRuns.BlockedUntilWoken` | k64_sched.c:302-317 | a task that blocks without a time stays blocked until somebody wakes or stops it |
| `TaskRuns.EndedForGood` | k64_sched.c:114-118 | a task that exited or was stopped never runs again |
| `TaskRuns.CallsOnTasks` | k64_sched.c:293-325 | wake makes a blocked task ready and leaves others alone; stop and exit end a task; the bootstrap task neither stops nor sleeps |
| `TaskRuns.CreatedWaits` | k64_sched.c:159-196 | a new task is ready after the current one, priority within 0 to 5, slice of two ticks and one more per level; the others keep their places |
| `TaskRuns.PriorityOutweighs` | k64_sched.c:206-244 | a level of priority is worth 1024 ticks: the picked task has waited that much longer than every ready task of higher priority |
| `TaskRuns.IdleRunsBootstrap` | k64_sched.c:206-244 | with nobody ready the bootstrap task runs |
| `TaskRuns.SliceHonoured` | k64_sched.c:260-285 | a running task keeps the processor for every tick of its slice, whatever becomes ready meanwhile |
| `TaskRuns.SliceEnds` | k64_sched.c:260-285 | the last tick of the slice is a decision in which it takes part |
| `TaskRuns.RuntimeCounts` | k64_sched.c:91-112 | the run time of a task is the number of ticks that found it running |
| `Messages.MessageTable.Call` | k64_system.c:345-379 | takes the first empty slot with the next id, or refuses, as the specification step |
| `Messages.MessageTable.Receive` | k64_system.c:1744-1792 | the first pending request for the service becomes active for the receiving process, which gets its id, contents and capacity; refused for a missing name, a short buffer, a stopped service or a process that is not its host |
| `Messages.MessageTable.Answer` | k64_system.c:1794-1828 | accepted only for an active request, by the process that received it |
| `Messages.MessageTable.Return` | k64_system.c:381-398 | the innermost dispatch returns and its slot is cleared; the overflow branch is dead |
| `Messages.StepKeepsInv` | k64_system.c:290-398 | slots in use and waiting dispatches match one to one |
| `Messages.DoneReturnsTheReply` | k64_system.c:381-398 | the caller gets the status and bytes of the one reply logged for its dispatch, an overflow if they exceed its buffer, and busy without a reply |
| `Messages.ReceptionIsNoted` | k64_system.c:1744-1792 | every accepted reception is appended to the log of exactly one waiting dispatch |
| `Messages.ReplyIsNoted` | k64_system.c:1794-1828 | every accepted reply is appended to the log of exactly one waiting dispatch |
| `Messages.NoOverflowOnReturn` | k64_system.c:391-395 | no response is longer than the output of its caller |
| `Messages.BusyIffEight` | k64_system.c:358-367 | a well-formed call is refused as busy if and only if eight dispatches are in progress |
| `Messages.DistinctIdsKept` | k64_system.c:290-300 | ids stay distinct across a step except exactly when the counter meets a live id |
| `Messages.EveryRun` | k64_system.c:290-398 | every reachable state: one to one, ids distinct until the 64-bit counter has gone round, all slots empty when nothing waits; every dispatch, waiting or returned, was received at most once and answered at most once, by its receiver, and returned that answer |
| `Messages.EveryCallEnds` | k64_system.c:290-398 | every call of every run, told by the events: busy without a run or a reply; or the receiver was handed the id, the request and the capacity of the caller, replied, and the caller got that status and those bytes, none for an error, and -9 without bytes when they exceed the output or 65400 |
| `Messages.CallAccepted` | k64_system.c:345-367 | a call is taken if and only if its data is at most 65400 bytes, the service has an entry and fewer than eight calls wait |
| `Messages.ReceiveAccepted` | k64_system.c:1744-1770 | a request is handed out if and only if the service may ask and a waiting call for it has not been received |
| `Messages.AnswerAccepted` | k64_system.c:1794-1818 | while ids are distinct a reply is taken if and only if it fits a message and its sender holds the call it names, unanswered |
| `Processes.UserProcesses.Spawn` | k64_usermode.c:927-943 | queues a child with a fresh pid and a running record, or is full |
| `Processes.UserProcesses.RunReservedChild` | k64_usermode.c:966-1005 | enters a queued child of that parent, or ends it when it does not load |
| `Processes.UserProcesses.Wait` | k64_usermode.c:665-706 | delivers the code of an ended child to its parent, runs a queued one first, refuses others |
| `Processes.UserProcesses.Poll` | k64_usermode.c:1031-1036 | runs one queued child only when no process is running |
| `Processes.UserProcesses.Exit` | k64_usermode.c:1153-1164 | ends the running process; its queue entry goes; a waiting parent gets the code |
| `Processes.ChildrenOfTopWait` | k64_usermode.c:966-1029 | while a process runs none of its children does |
| `Processes.EnterKeepsInv` | k64_usermode.c:966-985 | the entered child was never entered before |
| `Processes.StepKeepsInv` | k64_usermode.c:335-477 | every step keeps the process table, the queue, the stack and the history consistent |
| `Processes.PidsNeverReused` | k64_usermode.c:331-333 | a pid given out was never given out before |
| `Processes.CodesNeverChange` | k64_usermode.c:446-462 | a process ends once |
| `Processes.EveryRun` | k64_usermode.c:335-1036 | over every run: nobody is entered twice, queued children have running records, each code is delivered at most once and to the parent |
| `Exits.DeliveriesAreTrue` | k64_usermode.c:430-706 | over every run, from the events: each code handed over went to the process that had spawned and waited for the child, and the child exited with it while it ran or failed to load with it |
| `Exits.NoCodeIsLost` | k64_usermode.c:430-477 | a child that ended stays on record with its status and code until its parent is handed that code |
| `Exits.ExitIsNoted` | k64_usermode.c:1153-1164 | an exit is noted with its code; an awaited child hands exactly that code to the parent below it, another keeps its record |
| `Exits.FailedLoadIsNoted` | k64_usermode.c:987-1004 | a child that does not load ends as faulted with the code of the load, handed over exactly to one who waits |
| `Exits.ChosenRuns` | k64_usermode.c:966-1036 | yield runs the first queued child of the caller, a poll the first of all, a wait the one named |
| `Exits.WaitAnswers` | k64_usermode.c:665-706 | what wait answers: no such process, not a child (nobody is its own), still running, or the code of the child |
| `Exits.SpawnAnswers` | k64_usermode.c:927-943 | spawn is refused exactly if eight children are queued or sixty-four records are held |
| `Tcp.HttpClient.Append` | k64_net.c:632-645 | appends what fits, keeping the last byte free |
| `Tcp.HttpClient.Receive` | k64_net.c:771-834 | handles a segment as the specification step |
| `Tcp.TakeDataConsumes` | k64_net.c:810-820 | a slice of the stream, wherever it lies, keeps buffer and acknowledgement number in step |
| `Tcp.NextSliceIsTaken` | k64_net.c:810-813 | data at the acknowledged point is always taken |
| `Tcp.ResponseIsPrefix` | k64_net.c:771-834 | for every order of slices with duplicates, overlaps and gaps the response is a prefix of the stream, at the length the acknowledgement number says, also across a wrap of sequence numbers |
| `Tcp.Handshake` | k64_net.c:803-809 | a connection stands exactly after a SYN-ACK of its own number and counts from the peer's; a reset is an error |
| `Tcp.Endings` | k64_net.c:799-834 | a reset is an error, a FIN finishes a connection that stands, a complete response does too, and nothing else changes the state |
| `Tcp.WholeResponse` | k64_net.c:771-834 | after handshake and request, slices in order make up the stream byte for byte, with the numbers counted right |
| `Checksum.AddBytes` | k64_net.c:125-135 | adds the big-endian words modulo 2^32; from the lower half of the range a 16-bit length cannot overflow |
| `Checksum.SumPadded` | k64_net.c:125-135 | an odd last byte counts as the high half of a word |
| `Checksum.Finish` | k64_net.c:137-142 | folds the carries in and complements |
| `Checksum.Csum16` | k64_net.c:108-123 | the complement of the folded sum |
| `Checksum.TcpChecksum` | k64_net.c:144-156 | covers pseudo-header and segment |
| `Checksum.UdpChecksum` | k64_net.c:158-172 | likewise, and is never zero |
| `Checksum.ComplementVerifies` | k64_net.c:137-142 | adding the complement of the folded sum verifies (section 1 of RFC 1071) |
| `Checksum.OnlyComplementVerifies` | k64_net.c:137-142 | no other 16-bit value does, up to the two ways to write zero |
| `Checksum.NetStack.SendIpv4` | k64_net.c:306-332 | for every 16-bit payload length: addresses, length, identification and payload where they belong and a header that verifies; refused exactly above 1500 bytes; the check on the 16-bit total lets an overlong payload pass exactly where that total wraps |
| `Checksum.NetStack.SendTcp` | k64_net.c:338-359 | likewise; addresses, ports, sequence and acknowledgement numbers, flags and payload where they belong, and header and segment of every emitted frame verify |
| `Checksum.NetStack.EmitUdp` | k64_net.c:158-172 | every UDP datagram: header and datagram verify, addresses, ports, length and payload intact, the checksum field never zero |
| `Checksum.NetStack.SendUdp` | k64_net.c:991-1013 | likewise for a string, whose length is kept in 16 bits |
| `Checksum.NetStack.SendDnsQuery` | k64_net.c:402-416 | likewise for a query to the name server, and again to the gateway if that is another host |
| `Checksum.NetStack.SendDhcp` | k64_net.c:536-541 | likewise for a broadcast from address 0 |

## Left out

- Device drivers, port I/O, assembly entry and return, TSS and CR3 switches, terminal, shell, editor, installer: hardware plumbing and user interface.
- `k64_xfs_truncate` and `k64_xfs_rename`: growing writes one byte (k64_xfs.c:896) and a rename that grows its directory writes back a stale parent inode (k64_xfs.c:964-973).
- `k64_xfs_list_dir`, `k64_xfs_stat`, chmod and chown: they would only add easy members. Mount and unmount: recovery is stated for `k64_xfs_journal_recover` itself.
- Storage.OperationSurvives: metadata only, without reads, for operations that are one transaction and meet no failed request above the block layer; data blocks and the superblock are not journalled. Inode fields are read back cut to their widths on the disk (`Encoding.StoredExactly`), since the model's numbers are unbounded. A write to a new path is two transactions, the second on metadata that is not clean.
- Vmm.AddressSpacePool.RunFrames: single takings of frames; once a pointer leads to a frame that was given back, what the code's walks read there is not part of the model.
- Mount.JournalledMount.TwoTransactions: operations that use no more blocks than the cache holds, so that nothing is written home in between.
- FileSystem.Geometry: volumes of at most 32768 blocks, what one bitmap block covers; the same bound is part of `Check.Shape`.
- Files.Xfs.Create: what a failed call leaves behind is not specified; the code does not undo its partial writes. The same holds for the other file operations.
- Mount.JournalledMount.Begin: the transaction counter is assumed not to wrap at 2^64. The class starts on a cleared journal; for an old one see `Remount`.
- Mount.JournalledMount.Record: blocks of the journal area itself are excluded; the one caller never passes them (k64_xfs.c:69-73).
- Mount.JournalledMount.BlockWrite: likewise; the file layer never writes to the journal area.
- Vmm.AddressSpacePool.Run: isolation over runs is for pids other than 0 and ranges of pages the kernel keeps no table for; `Vmm.AddressSpacePool.MapPage` and `Vmm.AddressSpacePool.RunAny` say what holds otherwise.
- Vmm.AddressSpacePool.MakeUserImage: the same ranges, and pids other than 0.
- Vmm.AddressSpacePool.MapPage: write permission is stated for the last entry only; translation does not look at it on the way down.
- Mount.JournalledMount.Transaction: blocks outside the journal area and a transaction counter below 2^64 - 1, as its parts.
- Messages.MessageTable.Receive: parsing of the request buffer and the service registry are parameters (`named`, `running`, `host`).
- Scheduler.NoStarvation: counts scheduler ticks; ticks taken while a user context is active skip accounting (k64_sched.c:247-258), and the tick counter is unbounded.
- Vmm.AddressSpacePool.AllocSpace: asks for a handle that is not in use, since the code would forget the frames of a live one. MMIO mappings of the kernel (k64_vmm.c:308-337) are not part of the model.
- Vmm.AddressSpacePool.ReadUser: page tables and data frames are kept apart, so reading a page table through a user mapping is not modelled; frames never written read as zeros.
- PageTables.ExtendKeepsWalks: 1 GiB pages are taken to lie below 2^48 (`PageTables.Typed`), the exact condition of `PageTables.HighGibSplitChangesWalk`.
- Processes.UserProcesses.Spawn: the process table is a map of at most 64 pids rather than an array; pids are unbounded. File descriptors, credentials and wait_task links are left out, as are file access checks.
- TaskRuns.SleepsExactly: a blocked task that is still the current one makes no further call of its own, and nobody stops or wakes it.
- Processes.UserProcesses.Exit: an exit and the return to whoever runs the process are one step.
- Tcp.HttpClient.Receive: the header parsing, the acknowledgements sent and the request are left out; whether a response is complete is a parameter.
- Builder.ImageBuilder.Build: paths are lists of components, and walking the host's directory is not part of the model; the superblock is represented by the free count.
- Check.CheckVolume: error messages are left out.
- CRC32 is any function; the layouts of directory entries and the superblock are left out. In `k64_net.c` address resolution is a parameter.
