# Pintos, modelled and verified

A Dafny model of the core of a Pintos kernel and of a scheduling notebook that comes with it.
The properties proved are about whole runs: any number of threads, any interleaving, any sequence
of calls.

* **Buffer cache** (`BufCache`, `BufCacheTable`). The write-back cache of 64 sectors as a system
  of steps. Each turn of the access loop under the cache lock is a step; each byte moved between
  device and buffer while the lock is released is a step of its own. Every interleaving refines one
  atomic disk, answers every thread's requests one by one, and ends unless new requests come in.
  The class `Table` has the code between two uses of the lock, and each of its methods is one step.
* **Files** (`Words`, `InodeIndex`, `Ledger`, `Volume`, `Growth`, `FileBytes`, `Store`, `FileRuns`,
  `FileHistory`, `FileSystem`, `CachedFiles`). Inodes with direct, indirect and doubly indirect
  pointers over a free map. The class `Store` has the loops of allocation, release, reading and
  writing. `Volume` says what they do to ownership of sectors and to contents, `FileRuns` that each
  operation acts on files as on plain byte arrays, `FileHistory` what follows for whole histories.
  `FileSystem` shows that the calls of `Store` are steps of such histories. `CachedFiles` puts the
  copy loops on top of the buffer cache: they do to the file that the cache shows what they do to
  the disk in `Store`, while other threads use other files and read and write other parts of this one.
* **Inode protocol** (`InodeProtocol`). Readers, writers, extension and denial of writes on one
  inode, with their condition variables, as a system of steps. Who is let in, and that everybody can
  finish unless an extension has failed.
* **Threads** (`Scheduler`, `Kernel`, `Monitor`). Semaphores over the round-robin scheduler, and
  locks and condition variables over semaphores. What runs, waits and is woken follows from the
  actions of a run, and whoever wants a lock can get it. `Kernel` is the class whose methods refine
  the steps of `Scheduler`.
* **Processes** (`ProcessShare`). The record that a process shares with its parent, with its
  reference count, lock and semaphore. What a wait returns follows from the exits of the run.
* **Library code** (`MergeRuns`, `List`, `HashTable`, `Arithmetic`, `Malloc`, `Allocator`). The
  natural merge sort on doubly linked lists, the resizing hash table, 64-bit division from 32-bit
  division, and the block allocator.
* **Programs and archives** (`PageTable`, `UserStack`, `Ustar`). Two-level page tables, the initial
  user stack with its tokenizer, and archive headers.
* **Scheduling notebook** (`SchedulingLab`). The machine, its task stream and the first-in
  first-out scheduler.

`Sectors`, `Sequences`, `Powers` and `Semaphores` are shared definitions.

A run is a list of actions. `Possible` says that each action can happen when its turn comes, and
`Final` is the state that the run ends in. Interrupts being off, or a lock being held, makes a
stretch of code one step.

What the code does not do, each with an input and the exact condition:

* A file is found byte by byte only up to 379 sectors. Behind the doubly indirect block the code
  takes the remainder by 512 where an index block has 128 pointers. The input is in
  `InodeIndex.Block379`, the condition in `InodeIndex.ExactRange`.
* An extension that finds too few free sectors leaves the inode marked as being extended, and the
  sectors it took, all that were free, marked in the free map. An input is `Store.NoRoomInput`. The
  condition is in `Store.Store.AllocateFile`: as long as the map can be written, the extension fails
  if and only if fewer sectors are free than its data and index blocks need. Readers and writers of
  the inode then wait for good: a run is in `InodeProtocol.FailureInput`, the condition in
  `InodeProtocol.StuckExactly`, the effect in `InodeProtocol.NobodyGetsThrough`.
* `umod64` and `smod64` return 32 bits, and one quotient does not fit 64 bits. Inputs are in
  `Arithmetic.UmodInput` and `Arithmetic.SignedInputs`, the conditions in `Arithmetic.UmodExact`,
  `Arithmetic.SmodExact` and `Arithmetic.SdivExact`.
* The buffer cache answers a request for sector -1 from an unused entry (`BufCache.UnusedHit`). The
  theorems about the cache are about requests for sectors that the device has.
* `malloc` adds the header to the size in 32 bits, so that the largest requests get one page. The
  input is in `Malloc.LargestRequest`, the condition in `Malloc.TakeRoom`.
* `inode_read_at` adds offset and size in 32 bits with a sign, so that some reads past the end are
  not refused but short. The input is in `Store.ShortReadInput`, the condition in `Store.ShortRead`.
* `pagedir_destroy` frees a frame once for each page it is mapped at. The input is in
  `PageTable.SharedInput`, the condition in `PageTable.Directory.Destroy`.
* Archive names are stripped of prefixes only: a name that climbs further on is accepted. The input
  is in `Ustar.ClimbingInput`; what the stripping does ensure is in `Ustar.StrippedName`.
* The comment on `inode_write_at` says that growth is not implemented; the code grows the file, and
  so does the model.

## Model

| member | source | states |
|---|---|---|
| `BufCache.CacheIsAtomicDisk` | pintos/src/filesys/bufcache.c:92-140 | for any device, any number of threads and any interleaving from start-up: the events are those of one atomic disk, each thread has exactly one event for each of its calls, in the order of the calls, with the sector, offset, length and bytes of the call, and at most its last call is still pending; callers see what that disk holds; no sector is cached twice |
| `BufCache.StepRefines` | pintos/src/filesys/bufcache.c:92-140 | one step of any thread (a call, getting the lock, a turn of the access loop, one byte of a transfer, the end of a transfer) keeps the invariant and is either invisible to callers or one atomic read or write |
| `BufCache.RunRefines` | pintos/src/filesys/bufcache.c:92-140 | the same for every run from every state the invariant allows, by induction over the run |
| `BufCache.StepServes` | pintos/src/filesys/bufcache.c:125-140 | a step answers the pending request of the thread that takes it, or leaves it pending |
| `BufCache.RunServes` | pintos/src/filesys/bufcache.c:125-140 | over every run the events of a thread answer its requests one by one, and what is left is what is pending |
| `BufCache.StartOk` | pintos/src/filesys/bufcache.c:32-44 | the initial cache satisfies the invariant and shows the contents of the device |
| `BufCache.NoDeadlock` | pintos/src/filesys/bufcache.c:92-123 | while any request is pending, some thread other than a new caller can take a step |
| `BufCache.StepCloser` | pintos/src/filesys/bufcache.c:92-123 | every step but a new call, of whichever thread, brings all pending requests closer to their answers in a lexicographic order |
| `BufCache.EveryRunEnds` | pintos/src/filesys/bufcache.c:92-123 | the access loop terminates under any interference: every interleaving without new calls is bounded in length, and when it cannot go on every request has been answered |
| `BufCache.AllCanBeServed` | pintos/src/filesys/bufcache.c:92-123 | from every state there is a run without new calls after which no thread is pending |
| `BufCache.EvictsLeastRecent` | pintos/src/filesys/bufcache.c:46-123 | over every run from start-up: when a step takes an entry, to write it back or to fill it with another sector, no ready entry was accessed longer ago, by the accesses that the completed reads and writes of the run have made |
| `BufCache.RunKeepsRecency` | pintos/src/filesys/bufcache.c:92-123 | every run keeps the list in the order of these accesses, the last one first |
| `BufCache.UnusedHit` | pintos/src/filesys/bufcache.c:125-140 | a request for sector -1 hits an unused entry, and a write then leaves an entry dirty that has no sector |
| `BufCache.IterateRefines` | pintos/src/filesys/bufcache.c:92-123 | a turn of the loop in each of its five outcomes (hit, busy, nothing ready, clean, load) refines the disk |
| `BufCache.IterateServes` | pintos/src/filesys/bufcache.c:92-123 | a turn with an event answers the request of that thread and ends its call; one without leaves it pending; no other thread moves |
| `BufCache.StartCleanView` | pintos/src/filesys/bufcache.c:66-77 | marking a dirty entry not ready before its write-back changes nothing a caller can see |
| `BufCache.StartLoadView` | pintos/src/filesys/bufcache.c:79-90 | reassigning a clean entry to another sector changes nothing a caller can see |
| `BufCache.TransferView` | pintos/src/filesys/bufcache.c:66-90 | a byte moved between device and buffer while the lock is released changes nothing a caller can see |
| `BufCache.FinishView` | pintos/src/filesys/bufcache.c:66-90 | so does the end of a transfer, when the entry becomes ready and clean |
| `BufCache.Find` | pintos/src/filesys/bufcache.c:58-65 | the lowest entry that holds the sector, or proof that none does |
| `BufCache.CandidateBefore` | pintos/src/filesys/bufcache.c:46-56 | the last ready entry of the list, or proof that none is ready |
| `BufCacheTable.Table.constructor` | pintos/src/filesys/bufcache.c:32-44 | the table starts as the initial state of the step system |
| `BufCacheTable.Table.FindEntry` | pintos/src/filesys/bufcache.c:58-65 | the loop over the array computes the specified entry |
| `BufCacheTable.Table.GetEvictionCandidate` | pintos/src/filesys/bufcache.c:46-56 | the loop from the back of the list computes the specified candidate |
| `BufCacheTable.Table.MoveFront` | pintos/src/filesys/bufcache.c:103-104 | the entry is taken out where it stands in the list and put at the front |
| `BufCacheTable.Table.Enter` | pintos/src/filesys/bufcache.c:125-140 | a call is the step of the same name, and keeps the invariant |
| `BufCacheTable.Table.TakeLock` | pintos/src/filesys/bufcache.c:125-140 | getting the lock is the step of the same name, and keeps the invariant |
| `BufCacheTable.Table.AccessTurn` | pintos/src/filesys/bufcache.c:92-140 | a whole turn, in each of its outcomes with its waits, first halves and copies, is the step of the system with its event, and keeps the invariant |
| `BufCacheTable.Table.ServeHit` | pintos/src/filesys/bufcache.c:92-140 | a hit with its copy is that step |
| `BufCacheTable.Table.TransferByte` | pintos/src/filesys/bufcache.c:66-90 | moving a byte of `block_read` or `block_write` is that step, and keeps the invariant |
| `BufCacheTable.Table.EndOperation` | pintos/src/filesys/bufcache.c:72-90 | the second half of `clean` and `replace` with its two broadcasts is that step, and keeps the invariant |
| `BufCacheTable.Table.Flush` | pintos/src/filesys/bufcache.c:142-149 | when no other thread runs meanwhile: every entry that was ready is clean, an entry in flight is passed over, callers see what they saw, and if all were ready the device holds it; the lock stays held |
| `CachedFiles.CachedWrite` | pintos/src/filesys/inode.c:463-484 | the copy loop of a write through the cache, in any interleaving with readers and writers of the same file: the bytes of any range that nobody else writes to end up as the old ones with the new laid over them, in the file that the cache shows |
| `CachedFiles.CachedWriteAlone` | pintos/src/filesys/inode.c:463-484 | with no other writer, the whole file is the old one with the bytes laid over it |
| `CachedFiles.ClearEvent` | pintos/src/filesys/inode.c:463-484 | one atomic write that stays clear of the range keeps the tree of the file and these bytes |
| `CachedFiles.CachedRead` | pintos/src/filesys/inode.c:407-430 | the copy loop of a read through the cache, in any interleaving with readers of the file and writers of other parts of it: its reads deliver, put together, the bytes of the file |
| `CachedFiles.RunWrites` | pintos/src/filesys/inode.c:463-484 | the same for any list of chunks, any range and any run of the cache, by induction over the run |
| `CachedFiles.RunReads` | pintos/src/filesys/inode.c:407-430 | the same for reads |
| `CachedFiles.PiecesWrite` | pintos/src/filesys/inode.c:463-484 | the chunks of the loop make up the whole range |
| `CachedFiles.SpansGather` | pintos/src/filesys/inode.c:407-430 | so do those of the read loop |
| `InodeIndex.LookupFindsData` | pintos/src/filesys/inode.c:62-93 | for every byte position the pointer tree leads to the sector that holds that byte, and to nothing past the end |
| `InodeIndex.ExactRange` | pintos/src/filesys/inode.c:62-93 | the lookup stays inside its index blocks for every byte of a file if and only if the file has at most 379 sectors |
| `InodeIndex.Block379` | pintos/src/filesys/inode.c:79-90 | the input: in a file of 379 sectors and one byte the last byte is looked up outside its index block, and the byte before it is found |
| `InodeIndex.DecodeEncode` | pintos/src/filesys/inode.c:20-28 | an on-disk inode is read back as it was written |
| `InodeIndex.SectorsMonotone` | pintos/src/filesys/inode.c:32-36 | a longer file never has fewer sectors |
| `Words.UnpackPack` | pintos/src/filesys/inode.c:77-90 | an index block read back from the disk holds the pointers that were written to it |
| `Store.Store.AllocateSector` | pintos/src/filesys/free-map.c:30-46 | takes the lowest free sector and marks exactly that one, or changes nothing |
| `Store.Store.AllocateFile` | pintos/src/filesys/inode.c:95-190 | on success the tree has grown to the length by sectors that were free, all different and now in use, with every old pointer kept; on failure the old tree is intact and the sectors taken so far stay marked; provided the map can be written, it succeeds if and only if there are as many free sectors as the data and index blocks need |
| `Store.Store.SectorOf` | pintos/src/filesys/inode.c:62-93 | the sector of the file that holds the byte |
| `Store.Store.ReadBytes` | pintos/src/filesys/inode.c:407-430 | the copy loop returns the bytes of the file in that range, up to its end |
| `Store.Store.ReadAt` | pintos/src/filesys/inode.c:385-433 | blocks while the file is being extended, is refused if the 32-bit sum of offset and size is past the end, and otherwise returns the bytes of the file in that range |
| `Store.Store.WriteBytes` | pintos/src/filesys/inode.c:463-484 | the copy loop overlays the bytes on the contents up to the end of the file, changes no other sector, and counts the bytes that fit |
| `Store.Store.WriteAt` | pintos/src/filesys/inode.c:440-494 | grows the file first if it is too short and then overlays the bytes; if growing fails, which happens exactly when sectors are short or the map cannot be written, it writes what fits the old length and leaves the flag set and no sector free |
| `Store.Store.Extend` | pintos/src/filesys/inode.c:95-190 | clears the flag exactly if the file has grown, and with a writable map that is exactly if there was room |
| `Store.Store.MakeRoom` | pintos/src/filesys/inode.c:454-462 | a file that is too short is extended, with the same exact condition, and stays intact either way |
| `Store.Store.DeallocateFile` | pintos/src/filesys/inode.c:193-228 | frees every sector of the file, none of them twice and no other |
| `Store.Store.Create` | pintos/src/filesys/inode.c:248-282 | on success a new sector holds an inode of that length over fresh sectors; on failure only the inode sector is given back; with a writable map it succeeds exactly if there was room for inode, data and index |
| `Store.Store.Close` | pintos/src/filesys/inode.c:349-371 | the last close writes the inode back and, if the file was removed, frees exactly its sectors |
| `Store.NoRoomInput` | pintos/src/filesys/inode.c:95-111 | the input: two sectors are needed and one is free |
| `Store.ShortRead` | pintos/src/filesys/inode.c:385-433 | a read that is not refused returns fewer bytes than asked for if and only if offset and size add up to 2^31 or more |
| `Store.ShortReadInput` | pintos/src/filesys/inode.c:401-402 | the input: one byte at offset 2^31 - 1 of an empty file is not refused, and is not there |
| `Store.ChunkSize` | pintos/src/filesys/inode.c:409-421 | a chunk stays inside its sector, the file and the request, is not empty while there is something to copy, and is as long as these allow |
| `Volume.GrowKeeps` | pintos/src/filesys/inode.c:95-190 | growing one file keeps every sector with at most one owner, every old byte of the file, and every other file |
| `Volume.OldBytesStay` | pintos/src/filesys/inode.c:95-190 | the grown tree still shows the old contents as a prefix |
| `Volume.TouchKeeps` | pintos/src/filesys/inode.c:95-190 | a change inside sectors a file owns leaves every other file and the ownership of sectors alone |
| `Volume.AddKeeps` | pintos/src/filesys/inode.c:248-282 | a new empty file on a free sector |
| `Volume.DropKeeps` | pintos/src/filesys/inode.c:193-228 | deleting a file removes its bytes and its sectors and nothing else |
| `Volume.NothingLeft` | pintos/src/filesys/inode.c:193-228 | with no file left and no sector lost, what is in use is what was reserved |
| `Growth.StageDone` | pintos/src/filesys/inode.c:95-190 | each stage of an extension (direct, indirect, doubly indirect) leads from one sound intermediate tree to the next |
| `Growth.StageFails` | pintos/src/filesys/inode.c:95-190 | a stage that fails leaves the old tree readable |
| `Growth.GrewBy` | pintos/src/filesys/inode.c:95-190 | a growth takes exactly the number of sectors that the two lengths determine |
| `Growth.ShortMore` | pintos/src/filesys/inode.c:95-190 | a stage that finds no sector left has had fewer than the whole extension needs |
| `Growth.Grown` | pintos/src/filesys/inode.c:181-187 | when the stages are done, the new length makes them one growth of the file |
| `Ledger.FreeAfter` | pintos/src/filesys/free-map.c:30-46 | the free sectors are fewer by exactly those taken |
| `FileBytes.WriteKeeps` | pintos/src/filesys/inode.c:463-484 | writing through the tree changes that file to the new bytes and no other file |
| `FileBytes.FailContents` | pintos/src/filesys/inode.c:95-190 | a failed extension does not change the contents |
| `FileRuns.StepOk` | pintos/src/filesys/inode.c:248-494 | every operation keeps the file system sound, acts on the files as it would on plain byte arrays, and moves no sector of another file; unless it fails it loses no sector; a close deletes the file if and only if it is the last close of a removed one |
| `FileRuns.CreateSound` | pintos/src/filesys/inode.c:248-282 | creation adds one file on fresh sectors and changes no other |
| `FileRuns.FailedCreateSound` | pintos/src/filesys/inode.c:248-282 | failed creation changes no file |
| `FileRuns.ExtendSound` | pintos/src/filesys/inode.c:95-190 | extension keeps the old bytes as a prefix and changes no other file |
| `FileRuns.FailSound` | pintos/src/filesys/inode.c:95-190 | a failed extension changes no file |
| `FileRuns.WriteSound` | pintos/src/filesys/inode.c:440-494 | a write overlays its bytes and changes nothing else |
| `FileRuns.OpenSound` | pintos/src/filesys/inode.c:287-328 | opening keeps the in-memory inode in agreement with the disk |
| `FileRuns.RemoveSound` | pintos/src/filesys/inode.c:373-380 | removal changes nothing on the device and no file |
| `FileRuns.CloseSound` | pintos/src/filesys/inode.c:349-371 | after the last close the disk alone describes the file |
| `FileRuns.DeleteSound` | pintos/src/filesys/inode.c:349-371 | the last close of a removed file removes it and frees its sectors |
| `FileHistory.FileIsolated` | pintos/src/filesys/inode.c:248-494 | no run of operations on other files changes a file |
| `FileHistory.BytesStay` | pintos/src/filesys/inode.c:385-494 | bytes of a file stay as they are through any run that does not write there or delete the file |
| `FileHistory.WrittenIsRead` | pintos/src/filesys/inode.c:385-494 | after a write, whatever operations follow elsewhere, a read of the range returns the bytes written, unless an extension of the file failed in between, and then it blocks |
| `FileHistory.NothingLost` | pintos/src/filesys/inode.c:95-228 | runs without a failed allocation lose no sector |
| `FileHistory.FreeMapRestored` | pintos/src/filesys/inode.c:95-371 | create, grow and write a file in any way, remove and close it: the free map is exactly what it was |
| `FileHistory.LivesByOperations` | pintos/src/filesys/inode.c:248-380 | after every run, which files there are, how often each is open, which are marked for removal and which are stuck after a failed extension is what the operations of the run call for |
| `FileHistory.RemovedIsDeleted` | pintos/src/filesys/inode.c:349-380 | a file that was removed at any moment of a run and is open no more is deleted, unless it was created again since |
| `FileHistory.KeptStays` | pintos/src/filesys/inode.c:349-380 | a file that is not removed in a run stays |
| `FileSystem.CreateFile` | pintos/src/filesys/inode.c:248-282 | a call of the code on a device with many files is a creation step of the run, good or failed, with the exact condition |
| `FileSystem.OpenFile` | pintos/src/filesys/inode.c:287-328 | opening a closed file reads the inode from its sector and is the step that opens it |
| `FileSystem.Reopen` | pintos/src/filesys/inode.c:330-337 | opening an open file is that step too |
| `FileSystem.RemoveFile` | pintos/src/filesys/inode.c:373-380 | marking a file is the step that removes it, and by `FileHistory.RemovedIsDeleted` leads to its deletion |
| `FileSystem.CloseFile` | pintos/src/filesys/inode.c:349-371 | a close, the last or not, of a removed file or not, is a closing step |
| `FileSystem.ReadFile` | pintos/src/filesys/inode.c:385-433 | a read returns what the state of the run says |
| `FileSystem.WriteFile` | pintos/src/filesys/inode.c:440-494 | a call of the code on a device with many files blocks exactly if an extension of the file has failed before, and is otherwise a growing step, good or failed, or none, followed by a writing step; so on byte arrays it leaves every other file and every byte outside its range alone and puts its bytes inside the file, which is long enough unless the extension failed |
| `FileSystem.WriteIsSteps` | pintos/src/filesys/inode.c:440-494 | what the write of the store promises is these two steps |
| `FileSystem.RoomState` | pintos/src/filesys/inode.c:454-462 | what a write ensures before it copies is a growing step, good or failed, or none |
| `FileSystem.ExtendedState` | pintos/src/filesys/inode.c:95-190 | the contract of a good extension is the growing step |
| `FileSystem.UnextendedState` | pintos/src/filesys/inode.c:95-190 | the contract of a failed one is the failing step |
| `FileSystem.WrittenState` | pintos/src/filesys/inode.c:463-484 | the contract of the copying is the writing step |
| `FileSystem.WriteOnBytes` | pintos/src/filesys/inode.c:440-494 | those two steps on byte arrays: every other file and every byte outside the range stay, the bytes are inside the file, and the file is long enough unless the extension failed |
| `FileSystem.CreateAndRemove` | pintos/src/filesys/inode.c:248-380 | four calls in a row, which succeed whenever there is room and the map can be written: they are a run that creates, opens, removes and closes one file, and the free map is what it was |
| `FileSystem.OpenAndRemove` | pintos/src/filesys/inode.c:287-380 | the last three of them on a file that nobody has open: it is deleted |
| `FileSystem.RemoveAndClose` | pintos/src/filesys/inode.c:349-380 | the last two on an open file: likewise |
| `MergeRuns.MergeOrdered` | pintos/src/lib/kernel/list.c:379-400 | merging two ordered runs gives an ordered one |
| `MergeRuns.MergeStable` | pintos/src/lib/kernel/list.c:379-400 | elements that compare equal keep their order, those of the first run first |
| `MergeRuns.MergePermutes` | pintos/src/lib/kernel/list.c:379-400 | merging keeps every element |
| `MergeRuns.PassHalves` | pintos/src/lib/kernel/list.c:404-440 | a pass turns r maximal runs into exactly r / 2 rounded up, and counts them right |
| `MergeRuns.PassStable` | pintos/src/lib/kernel/list.c:404-440 | a pass keeps the order of elements that compare equal |
| `MergeRuns.PassPermutes` | pintos/src/lib/kernel/list.c:404-440 | a pass keeps every element |
| `MergeRuns.SortSorts` | pintos/src/lib/kernel/list.c:404-440 | for every strict weak order the result is ordered, a permutation and stable |
| `MergeRuns.PassesLogarithmic` | pintos/src/lib/kernel/list.c:404-440 | at most 2^p initial runs need at most p passes, and at least one is made |
| `List.Relink` | pintos/src/lib/kernel/list.c:183-204 | the pointers after the six assignments |
| `List.Splice` | pintos/src/lib/kernel/list.c:183-204 | the list is doubly linked in the new order: the range stands before its new successor |
| `List.FindEndOfRun` | pintos/src/lib/kernel/list.c:357-373 | the end of the maximal non-decreasing run |
| `List.InplaceMerge` | pintos/src/lib/kernel/list.c:379-400 | on the linked elements: the two runs become their merge, everything outside stays |
| `List.OnePass` | pintos/src/lib/kernel/list.c:404-440 | on the linked elements: the pass of the specification, and its number of runs |
| `List.List.constructor` | pintos/src/lib/kernel/list.c:60-68 | an empty list between its two sentinels |
| `List.List.SortPass` | pintos/src/lib/kernel/list.c:404-440 | the contents become one pass over the old contents |
| `List.List.Sort` | pintos/src/lib/kernel/list.c:404-440 | the linked list ends up ordered, a stable permutation of what it was, after exactly as many passes as its number of runs calls for |
| `Arithmetic.Udiv64` | pintos/src/lib/arithmetic.c:77-127 | the true quotient for all 64-bit operands with a divisor other than zero, and no 64-by-32 division in it overflows |
| `Arithmetic.DivideSmall` | pintos/src/lib/arithmetic.c:80-112 | the two-step division by a 32-bit divisor is exact |
| `Arithmetic.DivideLarge` | pintos/src/lib/arithmetic.c:113-127 | the estimate with its correction is exact |
| `Arithmetic.BigDivisor` | pintos/src/lib/arithmetic.c:113-127 | the estimate from the shifted operands is the quotient or one more |
| `Arithmetic.Corrected` | pintos/src/lib/arithmetic.c:113-127 | the correction picks the right one of the two without wrapping |
| `Arithmetic.SmallDivisor` | pintos/src/lib/arithmetic.c:80-112 | the second division does not overflow, and the two halves make the quotient |
| `Arithmetic.Nlz` | pintos/src/lib/arithmetic.c:41-71 | shifted left by the result, the argument has its top bit set |
| `Arithmetic.DivideHalves` | pintos/src/lib/arithmetic.c:106-111 | the two 64-by-32 divisions on the halves of the dividend give the quotient, and neither overflows |
| `Arithmetic.UmodInput` | pintos/src/lib/arithmetic.c:131-135 | the input: dividend 2^32 with divisor 2^32 + 1 has remainder 2^32 and result 0 |
| `Arithmetic.SignedInputs` | pintos/src/lib/arithmetic.c:139-154 | the inputs: the least 64-bit number by -1, and 2^31 modulo 2^31 + 1 |
| `Arithmetic.Umod64` | pintos/src/lib/arithmetic.c:131-135 | the low 32 bits of the remainder |
| `Arithmetic.UmodExact` | pintos/src/lib/arithmetic.c:131-135 | this is the remainder for all dividends if and only if the divisor is at most 2^32 |
| `Arithmetic.Sdiv64` | pintos/src/lib/arithmetic.c:139-146 | rounds toward zero if and only if the operands are not the least 64-bit number and -1 |
| `Arithmetic.SdivExact` | pintos/src/lib/arithmetic.c:139-146 | for those two operands the result is the least 64-bit number again |
| `Arithmetic.TruncatesOnce` | pintos/src/lib/arithmetic.c:139-146 | the quotient that rounds toward zero is unique |
| `Arithmetic.Smod64` | pintos/src/lib/arithmetic.c:150-154 | the low 32 bits of the signed remainder |
| `Arithmetic.SmodExact` | pintos/src/lib/arithmetic.c:150-154 | this is the remainder for all dividends if and only if the divisor is at most 2^31 in size |
| `Scheduler.RunKeeps` | pintos/src/threads/thread.c:251-606 | after every run from a sound state exactly one thread runs, the ready list holds exactly the ready threads, each semaphore list exactly the threads blocked on it, and no wakeup is lost |
| `Scheduler.StartedOk` | pintos/src/threads/thread.c:251-606 | so after every run from start-up |
| `Scheduler.StepKeeps` | pintos/src/threads/thread.c:251-606 | each operation keeps all of this |
| `Scheduler.OneList` | pintos/src/threads/thread.c:251-281 | no thread is on two lists or twice on one |
| `Scheduler.NoLostWakeup` | pintos/src/threads/synch.c:60-121 | while a semaphore is positive and somebody waits for it, some thread that can run is on its way to take it |
| `Scheduler.ValueCounts` | pintos/src/threads/synch.c:60-121 | after every run the value is the initial one plus the ups minus the downs that got through |
| `Scheduler.RoundRobin` | pintos/src/threads/thread.c:530-606 | a thread with k others before it on the ready list is dispatched by the (k+1)-th call of the scheduler and not before |
| `Scheduler.QueueStep` | pintos/src/threads/thread.c:530-537 | only the scheduler takes threads off the ready list, and only at the front |
| `Scheduler.DispatchKeeps` | pintos/src/threads/thread.c:555-606 | from the state between two threads, dispatching restores the invariant |
| `Scheduler.DownBlocks` | pintos/src/threads/synch.c:60-75 | blocking on a semaphore keeps the invariant |
| `Scheduler.DownTakes` | pintos/src/threads/synch.c:60-75 | so does getting through it |
| `Scheduler.UpKeeps` | pintos/src/threads/synch.c:108-121 | raising and waking keeps it |
| `Scheduler.TryKeeps` | pintos/src/threads/synch.c:83-102 | so does trying |
| `Scheduler.YieldKeeps` | pintos/src/threads/thread.c:339-353 | so does yielding |
| `Scheduler.ExitKeeps` | pintos/src/threads/thread.c:318-336 | the invariant holds after an exit; `Scheduler.ExitGoes` says who has left |
| `Scheduler.CreateKeeps` | pintos/src/threads/thread.c:176-229 | a new thread joins the ready list |
| `Scheduler.LivesByActions` | pintos/src/threads/thread.c:176-336 | after every run a thread is there if and only if it was there or was created, and has not exited since, and it is in a semaphore down if and only if its last one has not got through |
| `Scheduler.ExitIsForGood` | pintos/src/threads/thread.c:318-336 | a thread that is not there is not running, ready or waiting, until it is created again |
| `Scheduler.ExitGoes` | pintos/src/threads/thread.c:318-336 | the thread that exits is gone |
| `Scheduler.DispatchStep` | pintos/src/threads/thread.c:530-606 | a step of any kind takes nobody or the front of the ready list, who then runs, and adds only new, yielding and woken threads, at the end |
| `Scheduler.CurrentIsLast` | pintos/src/threads/thread.c:530-606 | after every run the thread that runs is the one dispatched last |
| `Scheduler.WokenInOrder` | pintos/src/threads/synch.c:60-121 | over every run threads are woken from a semaphore in the order in which they fell asleep on it |
| `Scheduler.InitCounts` | pintos/src/threads/synch.c:44-51 | a semaphore starts with the value it is given and nobody waiting, and over every run from there the value counts ups and downs |
| `Kernel.Kernel.constructor` | pintos/src/threads/thread.c:90-130 | the initial thread runs, the idle thread stands by, and the invariant holds |
| `Kernel.Kernel.NextThreadToRun` | pintos/src/threads/thread.c:530-537 | the front of the ready list, or the idle thread if it is empty |
| `Kernel.Kernel.Schedule` | pintos/src/threads/thread.c:555-606 | refines the dispatch step |
| `Kernel.Kernel.ThreadYield` | pintos/src/threads/thread.c:339-353 | refines the yield step |
| `Kernel.Kernel.ThreadExit` | pintos/src/threads/thread.c:318-336 | refines the exit step, by which the thread is gone |
| `Kernel.Kernel.SemaTryDown` | pintos/src/threads/synch.c:83-102 | refines its step, and succeeds exactly if the value was positive |
| `Kernel.Kernel.SemaUp` | pintos/src/threads/synch.c:108-121 | refines its step |
| `Kernel.Kernel.SemaDown` | pintos/src/threads/synch.c:60-75 | refines its step, and gets through exactly if the value was positive |
| `Monitor.MutualExclusion` | pintos/src/threads/synch.c:192-236 | after every run the value of the lock and the number of threads in the critical section make one, and the recorded holder is the thread that has it |
| `Monitor.OneUser` | pintos/src/threads/synch.c:192-236 | two threads in the critical section are the same thread |
| `Monitor.RunKeeps` | pintos/src/threads/synch.c:192-338 | every run of acquire, release, wait, signal and broadcast keeps the invariant of lock and conditions |
| `Monitor.StepKeeps` | pintos/src/threads/synch.c:192-338 | each step of any thread keeps it |
| `Monitor.StageStep` | pintos/src/threads/synch.c:287-322 | a wait advances by at most one stage a step: queued, picked, raised, done |
| `Monitor.StagesCount` | pintos/src/threads/synch.c:287-322 | over every run each wait is picked and raised at most once, in this order |
| `Monitor.EveryoneGetsIn` | pintos/src/threads/synch.c:192-236 | from every state that a run leads to, a thread that wants the lock can get it and be its holder, with no thread doing more than to finish what it has begun and release the lock |
| `Monitor.AcquireSucceeds` | pintos/src/threads/synch.c:192-201 | so a call of lock_acquire, by whichever thread and at whichever moment, can succeed |
| `Monitor.SignalledGetsIn` | pintos/src/threads/synch.c:287-322 | from every such state a wait that was signalled can return with the lock |
| `Monitor.ReleaseHandsOver` | pintos/src/threads/synch.c:228-236 | after a release the thread is outside, nobody holds the lock, its value is one, and the first thread asleep for it is off the list |
| `Monitor.WaitJoins` | pintos/src/threads/synch.c:287-300 | a wait joins the end of its list, |
| `Monitor.WaitHandsOver` | pintos/src/threads/synch.c:287-300 | and then the lock is free and the first thread asleep for it is off the list |
| `Monitor.TryAcquires` | pintos/src/threads/synch.c:209-221 | trying gets through if and only if nobody is in the critical section, and else changes nothing |
| `Monitor.LockQueue` | pintos/src/threads/synch.c:192-236 | over every run threads asleep for the lock are woken in the order in which they fell asleep |
| `Monitor.RunAwake` | pintos/src/threads/synch.c:192-236 | over every run, while the lock is free and threads sleep for it, one of them is awake and coming |
| `Monitor.WaitReturns` | pintos/src/threads/synch.c:287-303 | a wait that returns was picked by exactly one signal, raised exactly once, and has the lock |
| `Monitor.NoLostSignal` | pintos/src/threads/synch.c:287-322 | a signal between releasing the lock and going to sleep is not lost |
| `Monitor.FirstInFirstOut` | pintos/src/threads/synch.c:287-322 | over every run, signals go to the waits in the order in which these came |
| `Monitor.CondSignal` | pintos/src/threads/synch.c:311-322 | the first wait on the list is raised; no wait goes back a stage |
| `Monitor.CondBroadcast` | pintos/src/threads/synch.c:330-338 | every wait on the list is raised and the list is empty |
| `Monitor.BroadcastRaisesAll` | pintos/src/threads/synch.c:330-338 | among the steps of any other threads: when the broadcast finds the list empty, every wait that was on the list when it began has been raised |
| `Monitor.BroadcastSteps` | pintos/src/threads/synch.c:330-338 | over every run that has the signals of the broadcast among other steps, such a wait is on the list, picked by it or raised |
| `ProcessShare.NeverTouchedAfterFree` | pintos/src/userprog/process.c:112-194 | in no run does a step of parent or child touch a shared record that was freed |
| `ProcessShare.TouchesLive` | pintos/src/userprog/process.c:112-194 | the same for one step |
| `ProcessShare.FreedOnce` | pintos/src/userprog/process.c:181-194 | over every run a record is freed at most once |
| `ProcessShare.NoLeak` | pintos/src/userprog/process.c:145-194 | once the child is gone and the parent has waited or exited, the record has been freed |
| `ProcessShare.WaitReturnsStatus` | pintos/src/userprog/process.c:112-142 | a wait that has waited returns the status that the child has recorded |
| `ProcessShare.StatusByActions` | pintos/src/userprog/process.c:112-194 | over every run from start-up, what a wait returns is the argument of the exit of the child that it was called for |
| `ProcessShare.WaitByActions` | pintos/src/userprog/process.c:112-142 | over every run from start-up, a wait for a process that the caller did not start or has waited for returns -1 at once and changes nothing, and any other wait waits |
| `ProcessShare.RunMatches` | pintos/src/userprog/process.c:112-194 | whether a process has exited and with which status, whom it waits for and whom it may still wait for follow from the actions of the run |
| `ProcessShare.StepsBounded` | pintos/src/userprog/process.c:112-194 | in every run without new calls every process takes a bounded number of steps, |
| `ProcessShare.AllHasEnded` | pintos/src/userprog/process.c:112-194 | and when none can go on, every process that has exited is gone, and who waits, waits for a child that has not exited |
| `ProcessShare.WaitEnds` | pintos/src/userprog/process.c:112-142 | a wait for a child that is gone gets through |
| `ProcessShare.LockMovesOn` | pintos/src/userprog/process.c:181-194 | whoever is waiting for the lock of a record, its holder can take a step |
| `ProcessShare.SecondWaitFails` | pintos/src/userprog/process.c:112-142 | after a wait for a child, or for a process that is no child, every later wait for it, in every run, returns -1 at once and changes nothing |
| `ProcessShare.StepKeeps` | pintos/src/userprog/process.c:112-194 | every step keeps the reference counts equal to the references |
| `InodeProtocol.NeverBoth` | pintos/src/filesys/inode.c:385-519 | in every run the counter is the number of denying handles less the number of writers, one of the two is zero, and at most one thread extends |
| `InodeProtocol.AssertionsHold` | pintos/src/filesys/inode.c:496-519 | a handle that denies writes is counted, and no more are counted than are open |
| `InodeProtocol.LengthGrows` | pintos/src/filesys/inode.c:181-187 | no run shortens the file |
| `InodeProtocol.StuckExactly` | pintos/src/filesys/inode.c:101-187 | the extension flag stays set with nobody extending if and only if an extension has failed |
| `InodeProtocol.FailureInput` | pintos/src/filesys/inode.c:101-111 | the input: on any inode that nobody extends or denies writes to, a write past the end whose extension fails, and a later read, lead to a reader that sleeps with nobody at work |
| `InodeProtocol.StuckStays` | pintos/src/filesys/inode.c:101-187 | once so, it stays so |
| `InodeProtocol.HonestStays` | pintos/src/filesys/inode.c:101-187 | until then the flag is set exactly while somebody extends |
| `InodeProtocol.NobodyGetsThrough` | pintos/src/filesys/inode.c:394-461 | after a failed extension no thread starts to read or write the inode again |
| `InodeProtocol.SleepersWaitForSomebody` | pintos/src/filesys/inode.c:394-510 | without a failed extension every sleeping thread waits for one that is at work |
| `InodeProtocol.StepKeeps` | pintos/src/filesys/inode.c:385-519 | each step keeps the counts and the sleeping conditions |
| `InodeProtocol.EveryoneCanFinish` | pintos/src/filesys/inode.c:385-519 | as long as no extension has failed, everybody at the inode can finish, without anybody beginning anything else |
| `InodeProtocol.ReadLetIn` | pintos/src/filesys/inode.c:392-405 | a read gets to the file if and only if nobody extends it or writes to it and it ends inside, and is refused if and only if only the last is missing |
| `InodeProtocol.WriteLetIn` | pintos/src/filesys/inode.c:454-462 | a write gets to the file if and only if nobody extends it and it is long enough, and extends it if and only if only the last is missing |
| `InodeProtocol.WritesInside` | pintos/src/filesys/inode.c:454-484 | over every run a thread that copies its bytes finds the file long enough, unless its own extension has failed, |
| `InodeProtocol.FailedIsOutside` | pintos/src/filesys/inode.c:101-111 | and then the file is too short |
| `InodeProtocol.WriteBegins` | pintos/src/filesys/inode.c:446-452 | without a denial every write is let in |
| `InodeProtocol.DeniedMeansNoWrites` | pintos/src/filesys/inode.c:446-510 | over every run, from when a handle denies until it allows again or is closed, nobody writes and every write returns at once |
| `InodeProtocol.BeginsAndEnds` | pintos/src/filesys/inode.c:385-494 | a read begins with the wait loop, and a thread that is done reading or writing has left |
| `InodeProtocol.DenyBegins` | pintos/src/filesys/file.c:118-127 | denying begins with the wait loop unless the handle denies already |
| `InodeProtocol.DenyTakes` | pintos/src/filesys/inode.c:498-508 | denying gets through if and only if nobody writes, and then the handle denies |
| `InodeProtocol.AllowUndoes` | pintos/src/filesys/inode.c:513-519 | allowing takes back the denial of its handle and of no other |
| `InodeProtocol.CloseUndoes` | pintos/src/filesys/file.c:45-54 | so does closing it |
| `Malloc.BlocksSafe` | pintos/src/threads/malloc.c:89-264 | after every sequence of calls live blocks lie inside the pages of their arena behind its header, and no two overlap |
| `Malloc.PagesReturned` | pintos/src/threads/malloc.c:218-264 | a page is held exactly while it has a live block; when everything is freed no page is held |
| `Malloc.TakeKeeps` | pintos/src/threads/malloc.c:89-154 | allocation gives a block that was not in use and keeps all others, or null and no change, and null only if nothing is asked for or no block is free and no page is offered |
| `Malloc.TakeRoom` | pintos/src/threads/malloc.c:89-154 | for all 32-bit sizes and in every state: a block that is given has room for the request if and only if the size is at most 2^32 - 12 |
| `Malloc.LargestRequest` | pintos/src/threads/malloc.c:105-120 | the input: a request for 2^32 - 1 bytes gets a block of one page with room for 4084 |
| `Malloc.PagesFit` | pintos/src/threads/malloc.c:105-120 | the number of pages computed in 32 bits is enough for size and header up to 2^32 - 12 - 4096, is zero from there up to 2^32 - 12, and is one beyond |
| `Malloc.GiveKeeps` | pintos/src/threads/malloc.c:218-264 | freeing ends the life of exactly that block |
| `Malloc.LiveInside` | pintos/src/threads/malloc.c:267-294 | the arena of a live block is found from its address, and the block lies within |
| `Malloc.LiveDisjoint` | pintos/src/threads/malloc.c:267-294 | live blocks do not overlap |
| `Malloc.BlockInside` | pintos/src/threads/malloc.c:285-294 | blocks of an arena lie behind its header and inside its page |
| `Malloc.BlocksApart` | pintos/src/threads/malloc.c:285-294 | blocks of one arena do not overlap |
| `Malloc.SomeLive` | pintos/src/threads/malloc.c:218-264 | every arena that is held has a live block |
| `Malloc.NothingHeld` | pintos/src/threads/malloc.c:218-264 | without live blocks the lists are empty |
| `Malloc.PopKeeps` | pintos/src/threads/malloc.c:148-153 | taking the first block of a list keeps the heap sound |
| `Malloc.CarveKeeps` | pintos/src/threads/malloc.c:124-146 | so does carving a new arena |
| `Malloc.TakeBigKeeps` | pintos/src/threads/malloc.c:105-120 | so does a block of several pages |
| `Malloc.DropBigKeeps` | pintos/src/threads/malloc.c:257-262 | so does returning one |
| `Malloc.PushKeeps` | pintos/src/threads/malloc.c:227-242 | so does returning a block to its list |
| `Malloc.ReleaseKeeps` | pintos/src/threads/malloc.c:241-253 | the last block of an arena takes all its blocks off the list and the page is returned |
| `Malloc.TakeFrugal` | pintos/src/threads/malloc.c:100-146 | the block is of the smallest class with room for the request, and a page is taken only if no block of that class is free |
| `Malloc.FreeThenMalloc` | pintos/src/threads/malloc.c:122-242 | a block that is given back while others of its arena are in use is the next of its class to be handed out, and then the heap is as before |
| `Malloc.LiveByCalls` | pintos/src/threads/malloc.c:89-264 | over every sequence of calls the live blocks are those returned and not given back since |
| `Allocator.MallocInit` | pintos/src/threads/malloc.c:71-85 | seven size classes of 16 to 1024 bytes, which fit the table, each with the number of blocks a page has room for |
| `Allocator.Allocator.constructor` | pintos/src/threads/malloc.c:71-85 | no arena, no free block |
| `Allocator.Allocator.CarveArena` | pintos/src/threads/malloc.c:137-146 | the list becomes the blocks of the arena in address order |
| `Allocator.Allocator.FindDescriptor` | pintos/src/threads/malloc.c:100-105 | the first class that is large enough, or none |
| `Allocator.Allocator.MallocBlock` | pintos/src/threads/malloc.c:122-154 | takes the first free block, carves a page if there is none, or fails without change |
| `Allocator.Allocator.Malloc` | pintos/src/threads/malloc.c:89-154 | refines the specified allocation, for all 32-bit sizes, and keeps the heap sound |
| `Allocator.Allocator.UnlistArena` | pintos/src/threads/malloc.c:247-251 | exactly the blocks of that arena leave the list |
| `Allocator.Allocator.FreeBlock` | pintos/src/threads/malloc.c:227-256 | refines the return of a block |
| `Allocator.Allocator.Free` | pintos/src/threads/malloc.c:218-264 | refines the specified release and keeps the heap sound |
| `HashTable.BucketCount` | pintos/src/lib/kernel/hash.c:351-413 | the greatest power of two that is at most half the number of elements, at least four |
| `HashTable.TurnOffTop` | pintos/src/lib/kernel/hash.c:329-333 | clearing the lowest set bit keeps the highest unless it is the only one |
| `HashTable.TurnOffBits` | pintos/src/lib/kernel/hash.c:329-333 | `x & (x - 1)` clears the lowest bit that is set |
| `HashTable.BitAndBits` | pintos/src/lib/kernel/hash.c:329-333 | the number that stands for `x & y` has exactly the bits that both have |
| `HashTable.MaskIsRemainder` | pintos/src/lib/kernel/hash.c:304-310 | the mask that picks the bucket gives the remainder of the hash by the number of buckets, a power of two |
| `HashTable.Adds` | pintos/src/lib/kernel/hash.c:416-421 | a new element keeps every element in exactly the bucket of its hash |
| `HashTable.Drops` | pintos/src/lib/kernel/hash.c:424-429 | so does removing one |
| `HashTable.InItsBucket` | pintos/src/lib/kernel/hash.c:305-326 | an element equal to one not in its bucket is nowhere |
| `HashTable.FindElem` | pintos/src/lib/kernel/hash.c:314-326 | finds an equal element or proves there is none |
| `HashTable.MoveAll` | pintos/src/lib/kernel/hash.c:385-410 | redistributing keeps exactly the same elements, each in its new bucket |
| `HashTable.WalkedAll` | pintos/src/lib/kernel/hash.c:199-235 | who has walked over all buckets has met every element exactly once |
| `HashTable.IndexIsRemainder` | pintos/src/lib/kernel/hash.c:304-310 | so an element belongs to the bucket of its hash modulo the number of buckets |
| `HashTable.Table.constructor` | pintos/src/lib/kernel/hash.c:24-42 | an empty table with four buckets |
| `HashTable.Table.Rehash` | pintos/src/lib/kernel/hash.c:351-413 | the elements stay, and the number of buckets is right if there was memory |
| `HashTable.Table.Find` | pintos/src/lib/kernel/hash.c:131-135 | an equal element if and only if there is one |
| `HashTable.Table.Insert` | pintos/src/lib/kernel/hash.c:98-110 | adds the element if there is no equal one, else returns that and changes nothing |
| `HashTable.Table.Replace` | pintos/src/lib/kernel/hash.c:114-127 | takes an equal element out and adds the new one |
| `HashTable.Table.Delete` | pintos/src/lib/kernel/hash.c:144-154 | takes an equal element out, or changes nothing |
| `HashTable.Table.InsertElem` | pintos/src/lib/kernel/hash.c:416-421 | adds exactly that element |
| `HashTable.Table.RemoveElem` | pintos/src/lib/kernel/hash.c:424-429 | removes exactly that element |
| `HashTable.Table.Next` | pintos/src/lib/kernel/hash.c:218-235 | the next place in bucket order, skipping empty buckets |
| `HashTable.Table.Iterate` | pintos/src/lib/kernel/hash.c:199-235 | a full iteration meets every element exactly once |
| `PageTable.EntryRoundTrip` | pintos/src/threads/pte.h:56-104 | an entry gives back the frame, the permission and the user flag it was made from, also when it is marked not present |
| `PageTable.PageNumber` | pintos/src/threads/pte.h:20-39 | a page is found by the upper ten bits of its number in the directory and by the lower ten in the page table |
| `PageTable.EntryBits` | pintos/src/threads/pte.h:56-104 | the arithmetic on entries agrees with the bit operations on 32-bit words |
| `PageTable.NewTable` | pintos/src/userprog/pagedir.c:56-85 | hanging an empty page table into the directory changes no mapping |
| `PageTable.SetEntry` | pintos/src/userprog/pagedir.c:98-119 | writing an entry changes the mapping of its page and of no other |
| `PageTable.TablesOnce` | pintos/src/userprog/pagedir.c:27-48 | no page table is freed twice |
| `PageTable.FramesOnce` | pintos/src/userprog/pagedir.c:27-48 | no frame is freed twice if and only if no frame is mapped at two pages |
| `PageTable.FreedOnce` | pintos/src/userprog/pagedir.c:27-48 | among the mapped frames, the page tables and the page of the directory none is freed twice if and only if no frame is mapped at two pages and all these pages are different |
| `PageTable.SharedInput` | pintos/src/userprog/pagedir.c:27-48 | the input: a directory with one frame at two pages |
| `PageTable.Directory.constructor` | pintos/src/userprog/pagedir.c:16-23 | no user page is mapped, the rest of the directory is the initial one, and its page is apart from all others |
| `PageTable.Directory.LookupPage` | pintos/src/userprog/pagedir.c:56-85 | finds or makes the page table and changes no mapping |
| `PageTable.Directory.WriteEntry` | pintos/src/userprog/pagedir.c:98-119 | only the mapping of that page changes |
| `PageTable.Directory.SetPage` | pintos/src/userprog/pagedir.c:98-119 | maps exactly that page to the frame; fails exactly if a page table is needed and there is no memory, and then changes no mapping; with pages that were not in use, frames, page tables and the page of the directory stay different and no frame is mapped twice |
| `PageTable.Directory.GetPage` | pintos/src/userprog/pagedir.c:125-137 | the kernel address of the byte if and only if its page is mapped |
| `PageTable.Directory.ClearPage` | pintos/src/userprog/pagedir.c:143-158 | unmaps exactly that page, and keeps pages apart |
| `PageTable.Directory.FreeFrames` | pintos/src/userprog/pagedir.c:39-44 | the frames of one page table, one for each page mapped by it |
| `PageTable.Directory.Destroy` | pintos/src/userprog/pagedir.c:27-48 | frees exactly the frames of mapped pages, the page tables and the page of the directory, and none twice if and only if no frame is mapped at two pages and all these pages are different |
| `UserStack.FrameReadBack` | pintos/src/userprog/process.c:556-583 | read back, the frame has the number of tokens, the address of the pointers, one for each token and a null pointer, and is aligned as section 2.2.2 of the System V i386 ABI asks |
| `UserStack.ArgumentReadBack` | pintos/src/userprog/process.c:519-589 | each pointer leads to its token with a null byte behind, outside the frame |
| `UserStack.StringAt` | pintos/src/userprog/process.c:538-554 | where each string lies among the pushed ones |
| `UserStack.TokensAre` | pintos/src/lib/string.c:234-275 | tokens are not empty, have no space, and joined are the line without its spaces |
| `UserStack.TokenCut` | pintos/src/lib/string.c:234-275 | spaces, then characters up to a space or the end, make the first token |
| `UserStack.NextToken` | pintos/src/lib/string.c:234-275 | in place: the next token is cut off and the rest has the remaining tokens |
| `UserStack.SkipSpaces` | pintos/src/lib/string.c:248-261 | stops at the first character that is no space |
| `UserStack.SkipWord` | pintos/src/lib/string.c:263-266 | stops at the first space or the end |
| `UserStack.Page.PushStrings` | pintos/src/userprog/process.c:533-554 | the strings of all tokens are on the page and the addresses recorded are theirs |
| `UserStack.Page.PushPointers` | pintos/src/userprog/process.c:564-572 | the pointers in order with a null pointer behind them |
| `UserStack.Page.SetupStack` | pintos/src/userprog/process.c:519-589 | the page holds strings, padding, pointers, argument vector, count and a slot for the return address as laid out for the tokens of the command line |
| `Ustar.HeaderRoundTrip` | pintos/src/lib/ustar.c:82-227 | every header that is made is parsed back to the stripped name, the type and the size, zero for a directory |
| `Ustar.OneByteCaught` | pintos/src/lib/ustar.c:181-227 | a header that is accepted is not accepted any more when any one byte outside the checksum field is changed |
| `Ustar.AcceptedName` | pintos/src/lib/ustar.c:181-227 | every accepted header gives a name that is not empty, is not `..` and does not begin with `/`, `./` or `../`, and a size that fits |
| `Ustar.ClimbingInput` | pintos/src/lib/ustar.c:65-73 | the input: the name `a/../../b` is not changed by stripping, and a header with it is accepted |
| `Ustar.AcceptedSum` | pintos/src/lib/ustar.c:181-227 | every accepted header has its own checksum in its field |
| `Ustar.MakeHeader` | pintos/src/lib/ustar.c:82-118 | fails exactly if the stripped name has more than 99 bytes, and then leaves the header alone |
| `Ustar.ParseHeader` | pintos/src/lib/ustar.c:181-227 | the loops compute the specified verdict, all errors included |
| `Ustar.FormatOctal` | pintos/src/lib/stdio.c:469-547 | the digits in reverse with zero padding are the octal numeral of that width |
| `Ustar.ParseOctalField` | pintos/src/lib/ustar.c:129-162 | the loop computes the specified number, or none for overflow or a stray character |
| `Ustar.ParseExactly` | pintos/src/lib/ustar.c:129-162 | a field gives a number if and only if it is octal digits, then a terminator, and their value fits 32 bits; it is that value |
| `Ustar.OctalRoundTrip` | pintos/src/lib/ustar.c:129-162 | a number written into a field is read back |
| `Ustar.CalculateChecksum` | pintos/src/lib/ustar.c:36-55 | the sum of the bytes with spaces for the field itself |
| `Ustar.SumIgnoresField` | pintos/src/lib/ustar.c:36-55 | the sum does not depend on what is in its own field |
| `Ustar.StripPrefixes` | pintos/src/lib/ustar.c:65-73 | the loop computes the stripped name |
| `Ustar.StrippedName` | pintos/src/lib/ustar.c:65-73 | a stripped name is not empty, is not the parent directory and does not begin with `/`, `./` or `../` |
| `Ustar.StripTwice` | pintos/src/lib/ustar.c:65-73 | stripping again changes nothing |
| `Ustar.FillFront` | pintos/src/lib/ustar.c:82-118 | the fields before the checksum, with the rest still clear |
| `Ustar.FillBack` | pintos/src/lib/ustar.c:82-118 | the fields behind it, with the others untouched |
| `Ustar.FillChecksum` | pintos/src/lib/ustar.c:82-118 | the checksum field completes the header |
| `Ustar.IsAllZeros` | pintos/src/lib/ustar.c:166-173 | true exactly for a block of zeros |
| `Ustar.StripsPrefixes` | pintos/src/lib/ustar.c:65-73 | what is stripped is `/`, `./` and `../` any number of times, and nothing else |
| `Ustar.Layout` | pintos/src/lib/ustar.c:10-33 | a header that is made has each field at the sum of the widths before it, and zeros in the rest |
| `SchedulingLab.Run` | schedlab/scheduling.ipynb:137-175 | a turn runs at least one and at most a quantum of time units, never past the total, and unless the thread is done it goes into I/O exactly at the end of a burst |
| `SchedulingLab.RunLength` | schedlab/scheduling.ipynb:137-175 | the least of what remains, the burst and the quantum, as far as these are limits |
| `SchedulingLab.Machine.Schedule` | schedlab/scheduling.ipynb:347-364 | terminates; every task has had a thread that ran for exactly its total time, every moment of a thread was spent running, waiting or in I/O, and the time passed is the total of all tasks and the time with nobody to run |
| `SchedulingLab.Machine.constructor` | schedlab/scheduling.ipynb:195-215 | nothing has run and all tasks are still to come |
| `SchedulingLab.Machine.EnterTasks` | schedlab/scheduling.ipynb:81-86 | exactly the tasks that are due get a thread, at the end of the queue in order |
| `SchedulingLab.Machine.Wakeups` | schedlab/scheduling.ipynb:235-251 | exactly the threads whose I/O is over join the end of the queue |
| `SchedulingLab.Machine.Arrivals` | schedlab/scheduling.ipynb:235-251 | nothing that is due stays out of the queue and nothing is lost |
| `SchedulingLab.Machine.NextStart` | schedlab/scheduling.ipynb:217-225 | the earliest arrival or wake-up still to come |
| `SchedulingLab.Machine.Idle` | schedlab/scheduling.ipynb:254-266 | time moves to the earliest moment at which something starts, which counts as idle, and something becomes ready |
| `SchedulingLab.Machine.Dequeue` | schedlab/scheduling.ipynb:314-345 | the front of the queue, with its waiting time accounted for |
| `SchedulingLab.Machine.RunThread` | schedlab/scheduling.ipynb:268-276 | time and the thread advance by the length of the turn, and the remaining work of the machine goes down unless the thread is done |
| `SchedulingLab.Machine.Settle` | schedlab/scheduling.ipynb:347-364 | the thread goes to the end of the queue, sleeps until its I/O is over, or is finished now, and no thread is in two places |

## Left out

- Directories, path names, file descriptors and system calls.
- Drivers, interrupts, timers, booting, the loader of executables and the user programs.
- Priorities, which this scheduler ignores, and statistics.
- The word-level bitmap: the free map is a sequence of booleans. While `Store.writable` is false its copy may fail to be written to the disk, and with it any allocation.
- Store.Store.WriteAt: has one thread at a time and no denial of writes; `CachedFiles` and `InodeProtocol` have the interleavings and the denials. Files of more than 379 sectors are excluded.
- Store.Store.AllocateFile: files of more than 379 sectors are excluded, as in all operations that grow a file.
- CachedFiles.CachedWrite: says nothing about bytes that two threads write to at once; the allocation of sectors during an extension is not interleaved with other users of the free map.
- CachedFiles.CachedRead: says nothing about bytes that somebody writes to during the read.
- Store.Store.ReadAt: has one thread at a time; `InodeProtocol` has the wait for writers.
- Store.Store.Extend: the sectors that a file gains are not zeroed, as in the code; their contents are whatever the disk held.
- Store.Store.Create: ends before the directory entry is added.
- BufCacheTable.Table.Flush: no other thread runs while it writes an entry back.
- BufCache.EveryRunEnds: is about runs in which no new calls come in; a thread that always comes late could wait for as long as others keep calling.
- InodeProtocol.AssertionsHold: takes the decrement in `inode_allow_write`, which holds no lock, as one step.
- List.Splice: within one list and towards the front, which is how the sort uses it; the other list operations would only add easy members.
- List.List.Sort: `less` is a function of two items, and must be a strict weak order.
- Scheduler.ValueCounts: the value is an unbounded number, where the code has 32 bits.
- Scheduler.RunKeeps: `thread_create` is one step, `sema_down` one step for each turn of its loop, so a woken thread can be overtaken; the switch of stacks is not modelled.
- Monitor.CondBroadcast: its signals follow each other without steps of other threads between them; `Monitor.BroadcastRaisesAll` has those.
- ProcessShare.StepKeeps: a child and the record it shares come into being in one step.
- Allocator.Allocator.Malloc: pages are offered by the caller; locks and the clearing of freed blocks are not modelled, nor `calloc` and `realloc`.
- HashTable.Table.Rehash: hash functions are a parameter, and numbers of elements are unbounded.
- PageTable.Directory.SetPage: without accessed and dirty bits and the flushing of cached translations.
- UserStack.Page.SetupStack: needs at most 100 tokens that fit the page, which the code does not test; mapping the page is not modelled.
- Ustar.ParseHeader: error texts are values of a datatype; bytes are numbers from 0 to 255.
- Ustar.FormatOctal: only the conversion that headers use.
- SchedulingLab.Machine.Schedule: tasks come sorted by arrival; the schedulers that the notebook leaves as exercises and its plots are not modelled.
