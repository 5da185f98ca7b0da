# MorpheusX: verified models

A Dafny model of the algorithmic core of MorpheusX and proofs about it. Every file takes part in
`dafny verify dfyconfig.toml`.

| files | what they model |
|---|---|
| `Prelude` | options, outcomes, ranges of numbers and some facts of arithmetic that several models share |
| `Bits`, `Dyadic`, `BuddySpec`, `FreeLists`, `NodeMemory`, `BuddyHeap` | the userspace buddy heap: XOR buddy addressing, intrusive free lists of 16-byte nodes in a memory of bytes, splitting, eager merging, arenas mapped on demand |
| `Mutex`, `Channel`, `OnceLock`, `RwLock` | the futex primitives, as transition systems over any number of threads, one step per atomic operation |
| `Bytes`, `Crc` | bytes, little-endian numbers and CRC32C |
| `Helix`, `Bitmap`, `Extent`, `FileRead`, `Ownership`, `Device`, `FileWrite`, `Checkpoint` | the HelixFS storage core: block bitmap, extent nodes, file contents on blocks, the index checkpoint region |
| `EngineSpec`, `CrashSpec`, `EngineState`, `Engine` | the HelixFS engine: writes, snapshots, checkpoints and superblock slots on a device where any write or flush may fail and a crash may come at any moment |
| `ClusterChain`, `Fat32`, `Utf16`, `FatNames`, `FatDirectory` | the FAT32 reader: cluster chains, resumable reads, long names, directory listings |
| `Rtc`, `BootLog` | calendar arithmetic, and the boot log reserved by compare-exchange |

## How to read it

- **Buddy heap.** `BuddySpec.State` is arenas, free blocks and live blocks. `Valid` says the blocks tile the arenas and no two
  free buddies exist. The central fact is `CoalescedFormIsUnique`: a set of bytes has at most one maximally coalesced tiling.
  Round trip, commutation and history independence follow from it. `BuddyHeap.Heap` is the code on pointers in a memory of
  bytes, proved to do exactly the abstract operations and to write no byte of a live block.
- **Futexes.** `Enabled` and `Apply` give one step; `IsRun` a run from the initial state. `futex_wait` compares and enqueues
  atomically and may wake spuriously. Two wake-up defects are exhibited as reachable states: a channel receiver that sleeps
  for good after the last sender has gone, and a writer asleep on a free read-write lock.
- **HelixFS.** `Device.Disk` keeps the history of everything a crash could have found: which blocks are not yet durable and,
  for each superblock slot, every content it may turn out to hold. `EngineState.Sound` is the engine's invariant. It says that
  each allocated block has exactly one owner, that every live or pinned file version is intact on its blocks, that every
  region any slot may name is allocated, and that at every moment of the device's history that region was durable and held
  the namespace of its checkpoint, and that what a recoverable superblock commits is durable. The invariant is split into
  aspects so that proofs open only the part they need.
- **Statements that fail of the code** come with the exact condition under which they hold and with how they fail otherwise:
  - growing a block in place past the arena size: `InPlaceReallocFits`, `InPlaceReallocCanOverrun`;
  - a channel receiver asleep after the last sender has gone: `StrandedIffMissed`, `LastDropCanBeMissed`;
  - a reader count that runs into the writer mark: `WordDecodes`, `ReadersCanLookLikeWriter`;
  - sleepers left on a free read-write lock: `SleepersLeftIffBlind`, `WriterCanSleepOnFreeLock`;
  - reading the boot log while a copy is in flight: `ReadsTrueIff`, `SettledLog`, `EarlyReaderSeesGap`;
  - two superblock copies that are not enough: `SlotsMoments`, `WriteSlots`, `BothCopiesCanBeLost`;
  - a superseded file that a mounted checkpoint still lists: `OverwrittenMountsIff`, `MountCanLoseFile`;
  - a mount that needs both slots to be readable, though one valid copy should do: `RecoverSuperblock`;
  - freeing a file whose runs overlap, where `FreeFileBlocks` says exactly which blocks stay in use: `OverlapLeaks`;
  - a write larger than the free space, which keeps every free block: `WriteExtents`, `AllocFragments`;
  - a FAT too short for the clusters of its volume: `LinksInFirstFat`, `FatCanBeTooShort`.

Where a comment in the source and its code disagree the code is followed: `helix/src/types.rs:43` says the superblock copies
are written alternately and one is always valid, but every commit writes both; `morpheus-console/src/ring.rs:55` says the
bytes below the length are committed, but the length moves before the copy.

## Model

| member | source | states |
|---|---|---|
| `Dyadic.SizeValues` | libmorpheus/src/buddy.rs:7-12 | block sizes run from the 16-byte minimum at order 0 to the arena size at the top order |
| `Dyadic.AlignedIsMultiple` | libmorpheus/src/buddy.rs:111-117 | clear low bits of an offset, which the proofs use, mean divisibility by the block size |
| `Dyadic.BuddyAndParent` | libmorpheus/src/buddy.rs:111-117 | flipping one offset bit gives the other half of the same parent; it stays aligned in the arena and flipping twice is the identity |
| `Dyadic.Halves` | libmorpheus/src/buddy.rs:187-194 | cutting a block yields two buddies whose common parent it is |
| `Dyadic.Nested` | libmorpheus/src/buddy.rs:111-117 | aligned blocks that share a byte are nested; no other overlap is possible |
| `Dyadic.SameOrderOverlap` | libmorpheus/src/buddy.rs:111-117 | aligned blocks of one order never overlap partially |
| `BuddySpec.CoalescedFormIsUnique` | libmorpheus/src/buddy.rs:155-232 | a set of bytes has at most one tiling by aligned blocks without two free buddies |
| `BuddySpec.FreeOrLive` | libmorpheus/src/buddy.rs:143-232 | every arena byte is free or live and never both |
| `BuddySpec.FreeSetDetermined` | libmorpheus/src/buddy.rs:155-232 | the free set is a function of the arenas and the live bytes |
| `BuddySpec.GrowValid` | libmorpheus/src/buddy.rs:143-153 | mapping an arena keeps the tiling and the canonical form |
| `BuddySpec.CutDownValid` | libmorpheus/src/buddy.rs:187-194 | splitting down to an order keeps the tiling and leaves no mergeable pair |
| `BuddySpec.CoalesceValid` | libmorpheus/src/buddy.rs:199-232 | eager merging restores the canonical form |
| `BuddySpec.AllocValid` | libmorpheus/src/buddy.rs:155-197 | an allocation keeps the state valid and hands out a block that was not live |
| `BuddySpec.ReleaseValid` | libmorpheus/src/buddy.rs:199-232 | a release keeps the state valid |
| `BuddySpec.ReleaseUndoesAlloc` | libmorpheus/src/buddy.rs:155-232 | freeing what was just allocated restores the whole state, whatever was split for it |
| `BuddySpec.ReleasesCommute` | libmorpheus/src/buddy.rs:199-232 | two frees give the same state in either order |
| `BuddySpec.AllReleased` | libmorpheus/src/buddy.rs:199-232 | with nothing live every arena is one top-order block again |
| `BuddySpec.RunKeepsValid` | libmorpheus/src/buddy.rs:143-232 | every run of allocations, frees and mappings keeps tiling, alignment and canonical form |
| `BuddySpec.HistoryIndependent` | libmorpheus/src/buddy.rs:143-232 | two runs that end with the same arenas and live blocks end with the same free set |
| `FreeLists.PushAll` | libmorpheus/src/buddy.rs:72-81 | pushing a node keeps every list linked both ways, acyclic and disjoint from the others |
| `FreeLists.PopAll` | libmorpheus/src/buddy.rs:83-94 | popping a head keeps every list linked both ways |
| `FreeLists.UnlinkAll` | libmorpheus/src/buddy.rs:96-109 | unlinking a node anywhere keeps every list linked both ways |
| `NodeMemory.PushLaid` | libmorpheus/src/buddy.rs:72-81 | on bytes: pushing a node at least 16 bytes from every other leaves the lists spelled out in memory with the node in front, and writes no byte outside that node and the listed nodes |
| `NodeMemory.PopLaid` | libmorpheus/src/buddy.rs:83-94 | on bytes: the head read is the first of the list, and the lists without it are spelled out; only bytes of listed nodes are written |
| `NodeMemory.UnlinkLaid` | libmorpheus/src/buddy.rs:96-109 | on bytes: the two words read are the neighbours, and the lists without the node are spelled out; only bytes of listed nodes are written |
| `NodeMemory.LaidKept` | libmorpheus/src/buddy.rs:72-109 | changing bytes outside the 16 bytes of every listed node disturbs no list |
| `BuddyHeap.LayoutOrderIsLeast` | libmorpheus/src/buddy.rs:234-241 | the order is the least whose blocks hold size and alignment, and saturates past the arena size |
| `BuddyHeap.LayoutAligned` | libmorpheus/src/buddy.rs:234-241 | a live block is aligned, relative to its arena, to every power of two up to its size |
| `BuddyHeap.InPlaceReallocFits` | libmorpheus/src/buddy.rs:294-313 | growing in place under an equal order is sound exactly while the new size fits an arena |
| `BuddyHeap.InPlaceReallocCanOverrun` | libmorpheus/src/buddy.rs:294-313 | one byte past the arena size the saturated order hides the growth |
| `BuddyHeap.Heap.constructor` | libmorpheus/src/buddy.rs:21-35 | the empty heap is valid |
| `BuddyHeap.Heap.ListPush` | libmorpheus/src/buddy.rs:72-81 | the list gains the node at its front, by exactly the word stores of the code; no byte outside that node and the listed nodes is written |
| `BuddyHeap.Heap.ListPop` | libmorpheus/src/buddy.rs:83-94 | None exactly on an empty list, else the head comes off |
| `BuddyHeap.Heap.ListRemove` | libmorpheus/src/buddy.rs:96-109 | exactly the given node leaves its list |
| `BuddyHeap.Heap.IsFree` | libmorpheus/src/buddy.rs:131-140 | true exactly when the address is on the list of that order |
| `BuddyHeap.Heap.ArenaOf` | libmorpheus/src/buddy.rs:120-128 | the arena that contains the address, None exactly when there is none |
| `BuddyHeap.Heap.FindOrder` | libmorpheus/src/buddy.rs:155-162 | the least order with a free block that can serve the request, None exactly when there is none |
| `BuddyHeap.Heap.AddArena` | libmorpheus/src/buddy.rs:143-153 | one top-order block more, or nothing when the table is full; no live byte is written |
| `BuddyHeap.Heap.BuddyAlloc` | libmorpheus/src/buddy.rs:155-197 | fails exactly when nothing fits and no arena can be mapped; else the heap is the abstract allocation from a block of least sufficient order; no live byte is written |
| `BuddyHeap.Heap.CutFrom` | libmorpheus/src/buddy.rs:184-197 | popping and pushing upper halves is the abstract allocation |
| `BuddyHeap.Heap.BuddyFree` | libmorpheus/src/buddy.rs:199-232 | releasing a live block is the abstract release; an address outside every arena changes nothing; no other live byte is written |
| `BuddyHeap.Heap.TakeBuddy` | libmorpheus/src/buddy.rs:208-226 | merges exactly when the buddy is on the free list of the same order, and steps to the parent |
| `BuddyHeap.Heap.MergeAndPush` | libmorpheus/src/buddy.rs:205-232 | the merge loop lists exactly the abstract coalesced free set |
| `BuddyHeap.Heap.Alloc` | libmorpheus/src/buddy.rs:254-271 | null, dangling or block result by exact conditions; the new live block covers size and alignment |
| `BuddyHeap.Heap.Dealloc` | libmorpheus/src/buddy.rs:273-282 | exactly the block of that layout stops being live |
| `BuddyHeap.Heap.ClientWrite` | libmorpheus/src/buddy.rs:72-109 | writing any byte of a live block disturbs no list: no listed node reaches into it with any of its 16 bytes |
| `BuddyHeap.Heap.Transient` | libmorpheus/src/buddy.rs:254-282 | allocate and free again gives the same free set, apart from an arena mapped meanwhile |
| `FutexMutex.StepKeepsInv` | libmorpheus/src/sync.rs:59-97 | every step keeps the invariant that a sleeper implies the contended mark, a wake still owed, or a thread about to swap |
| `FutexMutex.RunKeepsInv` | libmorpheus/src/sync.rs:59-97 | the invariant holds in every state of every run |
| `FutexMutex.MutualExclusion` | libmorpheus/src/sync.rs:59-121 | at most one guard exists |
| `FutexMutex.FreeLockIsNotStuck` | libmorpheus/src/sync.rs:59-97 | a free lock with threads inside `lock` always has one that can move |
| `FutexMutex.FreeLockProgress` | libmorpheus/src/sync.rs:59-97 | on a free lock each internal step takes the lock or uses up one detour |
| `FutexMutex.FreeLockIsTaken` | libmorpheus/src/sync.rs:59-97 | internal steps alone hand a free lock over within a bounded number of steps |
| `FutexMutex.RefinesLock` | libmorpheus/src/sync.rs:59-121 | each step is an acquire of a lock nobody owned, a release by its owner, or no change of ownership |
| `Channel.StepKeepsInv` | libmorpheus/src/sync.rs:142-159 | every step of send, recv, clone and drop keeps the channel invariant, with the mutex model embedded |
| `Channel.RunKeepsInv` | libmorpheus/src/sync.rs:379-442 | the invariant holds in every state of every run |
| `Channel.DeliveredInOrder` | libmorpheus/src/sync.rs:379-407 | what was received is always a prefix of what was pushed and only grows |
| `Channel.NoneIsFinal` | libmorpheus/src/sync.rs:390-407 | after a None no sender exists, everything pushed was received, and nothing is pushed again |
| `Channel.NoLostSend` | libmorpheus/src/sync.rs:379-407 | the receiver never sleeps on a non-empty queue unless a send has still to notify it or wake it; a pending wake of a drop is not needed for that |
| `Channel.StrandedIffMissed` | libmorpheus/src/sync.rs:370-407 | a sleeping receiver with no notify or wake pending has no sender left exactly if the last drop fell between its counting load and its sequence load |
| `Channel.StrandedStays` | libmorpheus/src/sync.rs:142-159 | a stranded receiver stays stranded but for a spurious wake-up |
| `Channel.LastDropCanBeMissed` | libmorpheus/src/sync.rs:370-407 | a run in which the last sender goes unnoticed and the receiver is stranded |
| `FutexOnce.StepKeepsInv` | libmorpheus/src/sync.rs:185-214 | every step keeps the word, the data and the sleepers consistent |
| `FutexOnce.RunKeepsInv` | libmorpheus/src/sync.rs:185-214 | the invariant holds in every state of every run |
| `FutexOnce.EveryCallerSeesTheOneValue` | libmorpheus/src/sync.rs:185-214 | the initialiser has run exactly once when any caller returns, and all callers get that value |
| `FutexOnce.ValueStays` | libmorpheus/src/sync.rs:185-214 | the value never changes |
| `FutexOnce.UnwrapIsSound` | libmorpheus/src/sync.rs:185-214 | a thread that reads the data finds it |
| `FutexOnce.NoSleeperLeftBehind` | libmorpheus/src/sync.rs:185-205 | a sleeper implies that initialisation is under way or the wake-all is still owed |
| `FutexRwLock.StepKeepsCounted` | libmorpheus/src/sync.rs:236-335 | every step keeps the word equal to the guards it stands for |
| `FutexRwLock.RunKeepsCounted` | libmorpheus/src/sync.rs:236-335 | that holds in every state of every run |
| `FutexRwLock.WriterExcludesAll` | libmorpheus/src/sync.rs:253-335 | a writer excludes every other guard, for any number of threads |
| `FutexRwLock.WordDecodes` | libmorpheus/src/sync.rs:216-335 | without a writer the word is the number of readers, and it tells writers from readers exactly while there are fewer than 2^32 - 1 readers |
| `FutexRwLock.ReadersShare` | libmorpheus/src/sync.rs:236-251 | every number of readers up to 2^32 - 1 can be reached |
| `FutexRwLock.ReadersCanLookLikeWriter` | libmorpheus/src/sync.rs:216-335 | a reachable state in which 2^32 - 1 readers make the word read as write-locked |
| `FutexRwLock.RunKeepsRemembered` | libmorpheus/src/sync.rs:236-335 | in every state of every run a sleeper on a free lock either sleeps on the unlocked word or has somebody still to wake it |
| `FutexRwLock.SleepersLeftIffBlind` | libmorpheus/src/sync.rs:236-335 | a free lock that nobody is about to take or pass on leaves sleepers behind exactly if a writer sleeps on the unlocked word |
| `FutexRwLock.NobodyWillWake` | libmorpheus/src/sync.rs:253-265 | in the abandoned state only a new call or a spurious wake-up can move |
| `FutexRwLock.WriterCanSleepOnFreeLock` | libmorpheus/src/sync.rs:253-265 | a run that reaches the abandoned state: the writer reloads the unlocked word and sleeps on it |
| `Crc.TableStep` | helix/src/crc.rs:4-23 | eight shift steps are one table lookup |
| `Crc.TableEntry` | helix/src/crc.rs:4-23 | the inner loop computes eight shift steps of its index |
| `Crc.BuildTable` | helix/src/crc.rs:4-23 | every table entry is eight shift steps of its index |
| `Crc.LookupIsFeed` | helix/src/crc.rs:25-32 | one lookup step is eight steps of the bit-serial register |
| `Crc.Update` | helix/src/crc.rs:25-32 | running by lookups equals running bit by bit |
| `Crc.Crc32c` | helix/src/crc.rs:25-32 | the table-driven checksum equals the bit-serial definition for every message |
| `Crc.Crc32cTwo` | helix/src/crc.rs:35-46 | the checksum of two buffers is that of their concatenation |
| `Crc.FeedInjective` | helix/src/crc.rs:25-32 | different registers stay different under common bytes |
| `Crc.BurstDetected` | helix/src/crc.rs:25-32 | equal-length messages that differ only within four consecutive bytes have different checksums |
| `Bitmap.BlockBitmap.constructor` | helix/src/bitmap.rs:19-27 | an empty map: every block free |
| `Bitmap.BlockBitmap.FromBytes` | helix/src/bitmap.rs:30-54 | the used blocks are the set bits below the total, missing bytes count as zero, spare bits do not count, and the free count agrees |
| `Bitmap.BlockBitmap.IsAllocated` | helix/src/bitmap.rs:72-79 | true exactly for used blocks; false past the end |
| `Bitmap.BlockBitmap.FindFree` | helix/src/bitmap.rs:87-99 | the first free block cyclically from the hint; none exactly when the map is full |
| `Bitmap.BlockBitmap.AllocBlock` | helix/src/bitmap.rs:82-101 | fails exactly when the map is full, else takes the first free block cyclically from the hint and moves the hint past it |
| `Bitmap.BlockBitmap.FindRun` | helix/src/bitmap.rs:112-135 | the lowest run of that many free blocks; none exactly when there is none |
| `Bitmap.BlockBitmap.AllocContiguous` | helix/src/bitmap.rs:104-137 | zero is an invalid size; no space exactly when no run exists; else the lowest run is taken |
| `Bitmap.BlockBitmap.MarkBlockUsed` | helix/src/bitmap.rs:140-150 | adds the block once, ignores blocks past the end |
| `Bitmap.BlockBitmap.MarkRangeUsed` | helix/src/bitmap.rs:152-156 | adds exactly the blocks of the range below the end |
| `Bitmap.BlockBitmap.FreeBlock` | helix/src/bitmap.rs:159-174 | corrupt exactly when the block is not in use; otherwise exactly it is freed and the hint lowered |
| `Bitmap.BlockBitmap.FreeRange` | helix/src/bitmap.rs:176-181 | frees up to the first block not in use and succeeds exactly when there is none |
| `Extent.SerializeNode` | helix/src/extent.rs:24-58 | refused exactly for an empty list or more than 170 runs; else the buffer is the node block of the runs |
| `Extent.ReadNode` | helix/src/extent.rs:61-99 | accepts exactly blocks with a count in bounds and a matching checksum, and returns the runs they spell |
| `Extent.NodeRoundTrip` | helix/src/extent.rs:24-99 | any 1 to 170 runs read back as written |
| `Extent.DamageNeverMisreads` | helix/src/extent.rs:61-99 | damage within four bytes of a stored node never yields another run list, and is reported unless it reaches across the end of the checksum field |
| `FileRead.ReadRun` | helix/src/extent.rs:155-169 | one run replaces exactly what it covers, and fails exactly when a needed block cannot be read |
| `FileRead.ReadRuns` | helix/src/extent.rs:137-172 | byte for byte the direct lookup through the runs, later runs first; fails exactly when a needed block cannot be read |
| `FileRead.ReadContiguous` | helix/src/ops/read.rs:275-314 | the bytes of the consecutive blocks, cut to the size; the null root is corrupt |
| `FileRead.ReadBack` | helix/src/extent.rs:137-172 | a file laid out on its blocks looks up as the data stored |
| `FileRead.ReadFile` | helix/src/ops/read.rs:16-58 | a file that holds data reads as that data |
| `Ownership.FreeFileBlocks` | helix/src/extent.rs:104-134 | exactly which blocks stay in use, since freeing a run stops at the first block not in use; never frees anything else, and frees all the file owns when those blocks are in use and listed once |
| `Ownership.OverlapLeaks` | helix/src/extent.rs:104-134 | two overlapping runs, all blocks in use, of which one block is never freed |
| `Ownership.HoldsIsClean` | helix/src/extent.rs:104-134 | a stored file lists each of its blocks once |
| `Ownership.MarkFile` | helix/src/engine.rs:130-149 | marks exactly what the file owns |
| `Ownership.RebuildBitmap` | helix/src/engine.rs:109-157 | the marked set is exactly what live extent-backed entries own plus the index region, and the free count agrees even when they overlap |
| `Ownership.FreeUndoesMark` | helix/src/engine.rs:109-157 | freeing an entry that shares no block takes away exactly what the rebuild would not mark without it |
| `Device.Disk.Write` | helix/src/extent.rs:54-56 | a block write that may fail: other blocks keep their contents, a failed write leaves its block holding anything |
| `Device.Disk.WriteSlot` | helix/src/log/recovery.rs:59-84 | until a flush a slot may hold its old copy, the new copy or a torn one |
| `Device.Disk.Flush` | helix/src/log/recovery.rs:81 | a successful flush makes the latest writes the only possibility; a failed one changes nothing |
| `Device.Log.Append` | helix/src/log/mod.rs:125-222 | hands out the next sequence number or fails and changes nothing; a filled segment is flushed first |
| `Device.Log.Flush` | helix/src/log/mod.rs:225-255 | success means the device is flushed and reports the last sequence number; a failed write leaves the device alone, a failed flush makes nothing durable |
| `FileWrite.ExtendedCells` | helix/src/ops/write.rs:203-214 | coalescing a block into the run list appends exactly that block to the file |
| `FileWrite.AllocFragments` | helix/src/ops/write.rs:197-214 | fails exactly when fewer blocks are free than needed, and then has taken all of them; else the runs tile the file on blocks that were free |
| `FileWrite.PutBlocks` | helix/src/ops/write.rs:115-130 | consecutive blocks hold the data padded with zeros, or the write stopped; nothing else is written |
| `FileWrite.PutRunData` | helix/src/ops/write.rs:217-234 | the runs hold the data in order; nothing else is written |
| `FileWrite.PutNode` | helix/src/ops/write.rs:257-264 | the node block lists the runs, so the file reads back as the data |
| `FileWrite.FinishContiguous` | helix/src/ops/write.rs:114-157 | a contiguous file is installed on the blocks just allocated, or they are given back |
| `FileWrite.FinishFragmented` | helix/src/ops/write.rs:216-287 | a fragmented file is installed with its node, or every block is given back |
| `FileWrite.WriteExtents` | helix/src/ops/write.rs:90-287 | success stores the data on blocks that were free and touches nothing else; failure restores the bitmap, except that a write larger than the free space leaves every block taken |
| `Checkpoint.FilledHolds` | helix/src/checkpoint.rs:22-27 | a record with its checksum filled in passes the check |
| `Checkpoint.PackBlock` | helix/src/checkpoint.rs:44-55 | one block is its up to eight records with checksums, then zeros |
| `Checkpoint.WriteRegion` | helix/src/checkpoint.rs:34-67 | on success the region holds all records; only its blocks are written |
| `Checkpoint.LoadRegion` | helix/src/checkpoint.rs:69-109 | succeeds exactly when every record is readable with a good checksum; a region that holds records loads as them, in order |
| `Checkpoint.RegionRecord` | helix/src/checkpoint.rs:34-109 | record number i of a written region is record i with its checksum filled in |
| `EngineSpec.HeldKept` | helix/src/engine.rs:215-254 | a stored version is untouched by writes outside its blocks |
| `EngineSpec.SupersedePins` | helix/src/engine.rs:215-262 | installing a new version keeps every snapshot's versions held; only the replaced version may be unpinned |
| `EngineSpec.UnpinPins` | helix/src/engine.rs:238-262 | a superseded version no snapshot falls on can go without breaking any pin |
| `EngineSpec.SnapshotPins` | helix/src/engine.rs:517-538 | a snapshot pins exactly the versions current at its sequence number |
| `EngineSpec.ReplacedContents` | helix/src/engine.rs:215-254 | replacing one version changes the contents of that path alone |
| `CrashSpec.ExtendsSafe` | helix/src/engine.rs:327-385 | writes that keep clear of every region a slot may name keep every moment mountable |
| `CrashSpec.SlotWriteSafe` | helix/src/engine.rs:365-378 | writing a copy whose region is durable keeps every possible slot content mountable |
| `CrashSpec.FlushSafe` | helix/src/engine.rs:379 | a flush keeps every possible slot content mountable |
| `CrashSpec.MountAfterCrash` | helix/src/log/recovery.rs:19-56 | after a crash at any moment of any run, the copy mounting picks names a region that loads as the namespace of its checkpoint |
| `CrashSpec.SlotsMoments` | helix/src/engine.rs:365-379 | for every way writing both slots can end, there is a moment at which both copies can be lost exactly when the second slot might already be torn |
| `CrashSpec.SlotsCommitted` | helix/src/engine.rs:365-379 | if no write or flush fails, both slots hold the superblock alone and nothing is left to flush |
| `CrashSpec.SecondWriteFails` | helix/src/log/recovery.rs:59-84 | a sync whose second slot write fails leaves the first slot new and the second one possibly torn |
| `CrashSpec.BothCopiesCanBeLost` | helix/src/types.rs:43-44 | after such a sync every further sync that gets as far as the first slot has a moment at which a crash leaves no valid copy |
| `EngineState.FreeWrites` | helix/src/engine.rs:215-254 | writing to free blocks and flushing keeps the whole invariant |
| `EngineState.AddRegion` | helix/src/engine.rs:337-348 | a region on free blocks joins the owners |
| `EngineState.DropRegion` | helix/src/engine.rs:381-383 | a region may go once both slots name another |
| `EngineState.LoseStep` | helix/src/ops/write.rs:203-204 | blocks kept by a failed write stay allocated and belong to nobody |
| `EngineState.Install` | helix/src/engine.rs:215-254 | installing a version keeps block ownership exact and every pinned version intact |
| `EngineState.DropKept` | helix/src/engine.rs:238-252 | dropping an unpinned version returns exactly its blocks and keeps the invariant |
| `EngineState.SnapshotStep` | helix/src/engine.rs:530-533 | taking a snapshot keeps the invariant |
| `EngineState.SnapshotsReadable` | helix/src/engine.rs:256-262 | every version a snapshot saw is still allocated and holds its data |
| `EngineState.RebuildMarks` | helix/src/engine.rs:109-157 | a rebuild marks exactly the blocks of live files and of the region the superblock names; pinned versions, abandoned regions and lost blocks are not marked |
| `EngineState.SyncStep` | helix/src/engine.rs:541-566 | a sync that has reached both slots can be relied on from then on |
| `EngineState.SyncedNumberKept` | helix/src/log/recovery.rs:19-56 | after a crash at any moment since a successful sync, mounting finds at least the sequence number it committed |
| `EngineState.SyncedDataIntact` | helix/src/engine.rs:541-566 | after a crash every live or pinned version stored before a successful sync still holds its data |
| `EngineState.CommittedIntact` | helix/src/engine.rs:215-254 | after a crash every stored version the recovered superblock commits still holds its data |
| `EngineState.MountedFileIntact` | helix/src/engine.rs:238-252 | after a crash every file the mounted checkpoint names still holds its data if it was not overwritten since or a snapshot pins it |
| `EngineState.HeldIsSafe` | helix/src/engine.rs:215-254 | a live or pinned version keeps its data whatever is written to free blocks from then on |
| `EngineState.FreedIsLost` | helix/src/engine.rs:238-252 | a version whose blocks are free can be lost with the next block written |
| `EngineState.OverwriteSafeIff` | helix/src/engine.rs:238-262 | on the blocks of the device: what an overwrite supersedes keeps its data whatever is written to free blocks next exactly if a snapshot pins it |
| `EngineState.OverwrittenMountsIff` | helix/src/engine.rs:67-93 | after an overwrite, whatever is written to free blocks next and wherever a crash comes, every mount whose checkpoint lists the superseded version finds it intact, exactly if a snapshot pins it or no pair of copies in the slots leads to such a mount |
| `EngineState.MountCanLoseFile` | helix/src/engine.rs:215-254 | in the state a checkpoint leaves, overwrite any unpinned file and write one more block: a crash mounts that checkpoint, which loads and lists the file, and its data is lost |
| `Engine.HelixFs.constructor` | helix/src/engine.rs:34-51 | the empty file system, as formatted, is sound |
| `Engine.HelixFs.PutSlot` | helix/src/log/recovery.rs:59-80 | starting to write a slot keeps the invariant |
| `Engine.HelixFs.WriteSuperblock` | helix/src/log/recovery.rs:59-84 | the exact moments the device goes through; on success the slot holds the superblock and nothing else, after a failed write it may be torn and stays so; both copies can be lost meanwhile exactly when the other slot might be torn |
| `Engine.HelixFs.WriteSecond` | helix/src/engine.rs:369-379 | the exact moments of the second slot and the last flush |
| `Engine.HelixFs.WriteSlots` | helix/src/engine.rs:365-379 | the exact moments the device goes through; on success both slots agree; there is a moment at which both copies can be lost exactly when the second slot might already be torn |
| `Engine.HelixFs.Sync` | helix/src/engine.rs:541-566 | the exact moments the device goes through, for each place it can fail; on success both slots agree on the committed sequence number and the sync is remembered; whatever fails, the invariant holds |
| `Engine.HelixFs.ListIndex` | helix/src/engine.rs:328-334 | the records are the index entries, once each |
| `Engine.HelixFs.NewRegion` | helix/src/engine.rs:337-348 | a fresh region holds the records, or nothing is kept |
| `Engine.HelixFs.NameRegion` | helix/src/engine.rs:350-359 | the superblock in memory names the region of the current index |
| `Engine.HelixFs.FreeRegion` | helix/src/engine.rs:381-383 | exactly the old region is freed, once both slots name another |
| `Engine.HelixFs.Checkpoint` | helix/src/engine.rs:327-385 | on success both slots name a durable region of the current index and exactly the old region is freed; on failure every region a slot may name stays; no file is touched |
| `Engine.HelixFs.WriteInline` | helix/src/ops/write.rs:58-88 | a small file is logged and entered, or nothing changes |
| `Engine.HelixFs.WriteExtentFile` | helix/src/ops/write.rs:90-180 | a larger file is stored and entered, or nothing a reader sees changes |
| `Engine.HelixFs.WriteFile` | helix/src/ops/write.rs:30-180 | a new version is entered with the next sequence number and the superseded one keeps its blocks; directories are refused |
| `Engine.HelixFs.WriteFileCheckpointing` | helix/src/engine.rs:287-302 | the same after one checkpoint and retry when the log is full |
| `Engine.HelixFs.Reclaim` | helix/src/engine.rs:238-252 | the superseded version is kept exactly when a snapshot was taken while it was current, and otherwise exactly its blocks are freed |
| `Engine.HelixFs.Write` | helix/src/engine.rs:215-254 | the path reads as the data and no other file changes; the superseded version keeps its blocks if pinned and has all of them returned if not; failure changes no file |
| `Engine.HelixFs.Read` | helix/src/engine.rs:195-212 | the contents last written; not found and directory errors exactly otherwise |
| `Engine.HelixFs.Truncate` | helix/src/engine.rs:455-505 | the contents become a prefix of themselves or are followed by zeros; growth past 1 MiB is refused |
| `Engine.HelixFs.Snapshot` | helix/src/engine.rs:517-538 | the versions current now are pinned from then on, even if persisting the marker fails |
| `Engine.HelixFs.Run` | helix/src/engine.rs:215-566 | after any sequence of requests, any of which may fail anywhere, every moment could have been mounted from, no moment since a successful sync could have led back behind it, and every version any snapshot saw is intact |
| `Engine.RecoverSuperblock` | helix/src/log/recovery.rs:19-56 | a superblock is found exactly if both slots can be read and one copy is valid, and then it is a valid copy with the highest committed number; one unreadable slot stops the mount whatever the other holds |
| `Engine.MountIndex` | helix/src/engine.rs:67-93 | the errors of recovering the superblock; otherwise the records of the checkpoint the chosen copy names |
| `ClusterChain.PathFollowsChain` | morpheus-fat32/src/lib.rs:121-145 | a path from where a chain starts is a prefix of it |
| `ClusterChain.ChainIsDistinct` | morpheus-fat32/src/lib.rs:121-145 | a chain visits no cluster twice |
| `ClusterChain.ChainFits` | morpheus-fat32/src/lib.rs:121-145 | a chain is never longer than the number of clusters |
| `ClusterChain.FailedWalk` | morpheus-fat32/src/lib.rs:121-145 | a failed walk proves that no chain starts there |
| `ClusterChain.Walk` | morpheus-fat32/src/lib.rs:121-145 | succeeds exactly when a chain starts there, and returns it; cycles are rejected within the cluster count plus one steps |
| `ClusterChain.Gather` | morpheus-fat32/src/lib.rs:258-277 | succeeds exactly when every wanted byte can be found, and then holds them in order |
| `ClusterChain.ConcatAt` | morpheus-fat32/src/lib.rs:258-277 | lookup by division agrees with the joined clusters |
| `ClusterChain.GatheredIsSlice` | morpheus-fat32/src/lib.rs:258-277 | bytes gathered are a slice of the joined clusters |
| `Fat32.LinkBytes` | morpheus-fat32/src/lib.rs:94-115 | a link is the low 28 bits of the four bytes at its place in the image |
| `Fat32.LinksInFirstFat` | morpheus-fat32/src/bpb.rs:29-107 | every link a walk may follow lies inside the first FAT exactly if the FAT has an entry for every cluster |
| `Fat32.FatCanBeTooShort` | morpheus-fat32/src/bpb.rs:29-107 | an accepted boot sector whose FAT is too short for its clusters |
| `Fat32.FileChainIsUnique` | morpheus-fat32/src/lib.rs:121-145 | at most one chain starts at a cluster |
| `Fat32.Read` | morpheus-fat32/src/lib.rs:243-278 | nothing past the end; an error exactly when there is no chain or a wanted byte cannot be read, and then the cursor stays; else the wanted bytes, and the cursor past them |
| `Fat32.PieceOfFile` | morpheus-fat32/src/lib.rs:243-278 | what one read finds of a stored file is the next piece of its data |
| `Fat32.ReadPiece` | morpheus-fat32/src/lib.rs:243-278 | one read of a stored file returns its next piece |
| `Fat32.ReadPieces` | morpheus-fat32/src/lib.rs:243-278 | any sequence of reads with buffers of any size concatenates to the file data, then yields nothing |
| `Utf16.DecodeEncode` | morpheus-fat32/src/dir.rs:138-152 | decoding an encoded string gives it back |
| `FatNames.LfnUnits` | morpheus-fat32/src/dir.rs:55-67 | the thirteen units of a slot are appended in order |
| `FatNames.ParseEntries` | morpheus-fat32/src/dir.rs:69-136 | the loop computes the recursive parse |
| `FatNames.SlotsCollect` | morpheus-fat32/src/dir.rs:69-136 | slots stored last-first are collected in name order |
| `FatNames.StoredNameDecodes` | morpheus-fat32/src/dir.rs:138-152 | every name up to 255 units decodes, also when it fills its last slot |
| `FatNames.RecordParses` | morpheus-fat32/src/dir.rs:69-136 | the bytes of one record parse to it and leave the rest alone |
| `FatNames.DirectoryRoundTrip` | morpheus-fat32/src/tests.rs:142-175 | every directory of storable records, followed by nothing or by an end mark and anything at all, lists back exactly those records with their full names |
| `FatDirectory.ReadDirBlob` | morpheus-fat32/src/lib.rs:152-160 | succeeds exactly if a chain starts there and all its clusters can be read, and then is the clusters joined |
| `FatDirectory.ReadDir` | morpheus-fat32/src/lib.rs:215-226 | a directory whose clusters hold storable records lists as exactly those records; it fails exactly if there is no chain or a cluster cannot be read |
| `Rtc.FormulaIsDayCount` | morpheus-hal-x86_64/src/rtc.rs:129-154 | for every date from 1970 on the closed formula is the count of days by leap-aware year and month lengths |
| `Rtc.UnixSecs` | morpheus-hal-x86_64/src/rtc.rs:137-154 | the Unix time is 86400 per day since the epoch plus the time of day |
| `Rtc.Epoch` | morpheus-hal-x86_64/src/rtc.rs:137-154 | the epoch maps to zero |
| `Rtc.NextDay` | morpheus-hal-x86_64/src/rtc.rs:129-154 | the day after a valid date is valid and later |
| `Rtc.NextDayAddsOneDay` | morpheus-hal-x86_64/src/rtc.rs:137-154 | the next day is exactly 86400 seconds later, across month and year ends |
| `Rtc.DaysIncrease` | morpheus-hal-x86_64/src/rtc.rs:137-154 | later dates have larger day counts |
| `Rtc.StrictlyIncreasing` | morpheus-hal-x86_64/src/rtc.rs:137-154 | later timestamps have strictly larger Unix times |
| `BootLog.StepKeepsInv` | morpheus-console/src/ring.rs:18-50 | every step of every writer keeps the reservation invariant |
| `BootLog.RunKeepsInv` | morpheus-console/src/ring.rs:18-50 | the invariant holds in every state of every run |
| `BootLog.LengthGrows` | morpheus-console/src/ring.rs:18-50 | the length never shrinks and never passes 64 KiB |
| `BootLog.ReservationsFollow` | morpheus-console/src/ring.rs:18-50 | in every state of every run each copy in flight fills one reservation of the history, and the reservations follow one another from zero to the length, none of them empty |
| `BootLog.ReservationsTile` | morpheus-console/src/ring.rs:18-50 | every byte below the length, and no other, lies in a reservation, and in one only, whether its copy has finished or not |
| `BootLog.ReservationsDisjoint` | morpheus-console/src/ring.rs:18-50 | two copies in flight fill different reservations and their ranges share no byte, copied or not |
| `BootLog.ByteRead` | morpheus-console/src/ring.rs:18-61 | every byte below the length is the captured byte, or zero while its copy has not reached it |
| `BootLog.ReadsTrueIff` | morpheus-console/src/ring.rs:18-61 | a reader is given the captured strings in reservation order, cut at 64 KiB, exactly if every byte still in flight is a zero byte |
| `BootLog.SettledLog` | morpheus-console/src/ring.rs:18-61 | with no copy in flight a reader is given the captured strings, and without zero bytes in them exactly then |
| `BootLog.EarlyReaderSeesGap` | morpheus-console/src/ring.rs:52-61 | a reader during a copy can see reserved bytes that were never written |

## Left out

- Buddy heap: the spin lock around it, `alloc_zeroed` and the copying part of `realloc`, which are a wait loop and two byte copies, and alignment beyond that of an arena's base address, which the kernel's mapping decides.
- Futexes: memory-ordering weakness; every step is sequentially consistent.
- Channel.NoLostSend: covers one receiver, and a condition variable sequence that does not wrap around.
- CRC64 and FNV-1a: the same table argument over a wider register, and an opaque hash.
- Device.Log.Append: hands out sequence numbers only; the record bytes, the segments, the ring and its recycling are left out, and so are replay and time-travel reads.
- EngineState.SyncedNumberKept: about the number, not the log records behind it: a checkpoint recycles the log ring (`helix/src/engine.rs:354`) before a flush that may fail, so later appends may overwrite segments that the slots still rely on.
- Device.Log.Flush: does not model the log blocks it writes; what replay adds after a checkpoint is not covered.
- HelixFS index: a map from paths; hash collisions, path checks, deletion, `unlink` and `rename` are not modelled, and neither is how an entry's fields are laid out in its 512-byte record, of which only the checksum field is interpreted.
- HelixFS addresses: blocks are numbered from the start of the data region; the map to device sectors, and 64-bit overflow of a stored block number plus an offset, are left out.
- HelixFS superblock: the fields about the index checkpoint and the committed sequence number; its byte layout is left out and a torn copy always fails its check.
- HelixFS reads: a block either reads or does not; read failures that come and go are left out.
- FileWrite.WriteExtents: needs a file of fewer than 2^32 blocks, since run lengths are 32-bit and unchecked.
- Engine.HelixFs.constructor: starts from a freshly formatted device, not from a superblock that already names a checkpoint.
- Engine.HelixFs.WriteFile: does not create and log missing parent directories first.
- Engine.HelixFs.Write: likewise without parent directories, also those left behind by a write that then fails, and for files of fewer than 2^32 blocks.
- Engine.HelixFs.Run: covers one mount, starting from an empty file system; snapshots across a remount are not covered, and `EngineState.RebuildMarks` says what a remount does not mark.
- Engine.MountIndex: loads the records of the checkpoint; replaying the log on top of them is not modelled, and the rebuild of the bitmap is `Ownership.RebuildBitmap`.
- EngineState.MountedFileIntact: the half that holds in every state; `EngineState.OverwrittenMountsIff` is the equivalence, about the moment a version is superseded, since later its blocks may hold anything, the old data included.
- Checkpoint.LoadRegion: returns the records in order; entering them into the index tree is not modelled.
- Fat32.Read: boot sectors whose sector sums overflow 32 bits are left out; the boot sector is taken as parsed.
- FatDirectory.ReadDir: starts from the directory's first cluster; looking a path up component by component is left out.
- FatNames.DirectoryRoundTrip: for names without the units 0x0000 and 0xFFFF, as the format demands.
- Rtc.UnixSecs: decoding the clock registers and the retries around an update in progress are hardware access.
- BootLog.SettledLog: about bytes; the UTF-8 check of the reader is left out.
- Boot, drivers, consoles, system call wrappers, the executor of asynchronous jobs and constant tables: hardware, user interface and thin wrappers.
