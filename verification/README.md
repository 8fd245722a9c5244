# Verified models of the OPFS SQLite VFS and of the JavaScript event queue

Two parts of this repository keep protocol state by hand, and this project
models both in Dafny and proves what they promise.

**The SQLite VFS over the Origin Private File System.**
`emscripten/opfsvfs.c` keeps, for every open path, the pager's five-level lock,
the eight WAL lock slots and the shared-memory regions as aggregates over the
open files. `emscripten/opfs-pool.js` keeps a fixed pool of files, each with a
checksummed header that says which path it holds.

- `PagerRules` and `WalRules` state both lock protocols by looking at every
  other file, with no aggregate, and prove mutual exclusion over all runs and
  that a waiting writer gets through. `Inodes` is the record as the C code keeps
  it; its methods are proved to answer as those rules do and to keep every
  aggregate exact.
- `Digest` and `Header` are one file of the pool. `Bindings` and `SlotTables` are
  the pool with files, headers and index taken away: a table of slots, with what
  each operation does to it and what that means for the map from path to
  contents. `PoolSpec` is the pool on values, with the handle calls each operation
  makes, and is proved to be that table. `Recovery` stops an operation between any
  two handle calls and runs `init` on what is left, over any number of sessions.
- `OpfsPools` is the pool as the object it is, making those handle calls on a
  directory and keeping its two-way index; `OpfsVfses` is the linked list of
  inodes and the open files over it. `Bound` says that every open file's slot
  still has the file's path; while it holds, the VFS is a map from path to bytes.
  `Connections` has one file write and another read.

**The event queue.** `emscripten/emqueue.c` drains events that JavaScript
queues, from a timer that re-arms itself; `emscripten/wschan.c` and
`emscripten/httpx.c` hand them to sockets and requests.

- `Fields` is the in-place split and the join it undoes; `Events` packs events,
  numbers and NULs included.
- `EmQueues` is the timer and watcher protocol. What a drain does is a script,
  which may watch, unwatch and enter the event loop, where the timer may fire
  again; the protocol is a function over such scripts, and the class over its
  array of watchers is proved to compute it.
- `Delivery` is the contract of both clients as a state machine with its whole
  history. `JsState` keeps to it step by step, so its theorems hold at every
  moment, inside handlers too; `Registries` is the linked list of records, and
  `WsChans` and `Httpxs` are the clients, up to one turn of their drains.
- `Interps` puts both clients on the one queue they share, with the drains' loops
  and the ticks that run them. A handler may call either client and enter the
  event loop; the outcome is again a function of such scripts, and what it does to
  the queue is proved to be a script of `EmQueues`, from which the timer's and the
  watchers' properties follow. `Machines` is the same code one command and one turn
  of a loop at a time, with a stack; it gets where those functions say.

## What the code does that its comments do not say

- The comment above `opfsLock` (emscripten/opfsvfs.c:287-298) has PENDING and
  EXCLUSIVE refused while another file holds PENDING; the code refuses at
  RESERVED already. `GrantedExactlyWhenSafe` shows that it has to.
- Renaming a path onto itself empties the file, because the path is removed
  first. `RenameMovesContents` gives the exact condition.
- `open` and `rename` with an empty new name leave the slot free: an empty path
  is how a free slot is marked. `Act` and `Plain` in `SlotTables` say so.
- A path whose UTF-8 form starts with EF BB BF does not read back, since
  TextDecoder drops a byte order mark. `HeaderRoundTrip` is an equivalence with
  that condition, and so are `CleanReload` and the theorems on crashes. If there is
  nothing else in the path, `init` takes the file for a free slot and leaves the
  data in it, and the next path created there begins with them: `ReloadSweeps` says
  exactly when, and `HiddenDataComesBack` gives the run.
- `opfsDeviceCharacteristics` (emscripten/opfsvfs.c:406-412) promises that an open
  file outlives the deletion of its path. It does not: deleting the path, or
  closing one of several files opened on it with delete-on-close, frees and
  empties the slot under the others, and the slot may then go to another path.
  `Delete` and `Close` say exactly which files lose their slot, and `Read` and
  `Write` what they reach afterwards.
- A write through a slot that has been freed stays in it: `open` does not truncate,
  so the next path created there is not empty. `CreatedPath` says exactly when;
  `init` empties such a slot, whose header says that it is free.
- An allocation that fails in `opfsOpen` is reported after the pool has created
  the path, which stays.

## Modelling choices

Paths are their UTF-8 bytes. A handle is a byte sequence that fills gaps with
zeros, as the File System Standard's FileSystemSyncAccessHandle does; one call is
atomic and durable. 32-bit words are integers with wrap-around written out. The
bit masks of a file's WAL slots are sets of slot numbers. The directory's
enumeration order, the names of new files, the names of temporary files and the
outcome of every allocation are parameters. SQLite's side of the VFS contract is
taken as preconditions: unlocking goes to NONE or SHARED only, a file is not
closed with WAL slots locked and no shared memory mapped, paths are not empty and
at most 480 bytes, and offsets are not negative. JavaScript may push an event for any id it has handed
out, at any time a handler waits. Ghost fields (`files`, `levels`, `table`,
`mapped`, `live`, `list`, `open`, `history`, `served`, ...) record what the other
fields are proved to agree with.

## Model

| member | source | states |
|---|---|---|
| `PagerRules.GrantedExactlyWhenSafe` | emscripten/opfsvfs.c:287-355 | a reader's request for RESERVED, PENDING or EXCLUSIVE is granted exactly when granting it leaves no second writer and no exclusive holder with company, and it is then granted as asked |
| `PagerRules.SharedExactlyWhenAllowed` | emscripten/opfsvfs.c:309-318 | a file that holds nothing is granted SHARED exactly when that leaves the files exclusive and no file is in PENDING; otherwise it is BUSY and nothing changes |
| `PagerRules.StepKeepsSafe` | emscripten/opfsvfs.c:299-378 | one open, close, lock or unlock by any file keeps the files exclusive: one file at RESERVED or above, and an EXCLUSIVE holder alone |
| `PagerRules.RunKeepsSafe` | emscripten/opfsvfs.c:299-378 | so does every run of them by any number of files |
| `PagerRules.AggregatesTellWriters` | emscripten/opfsvfs.c:309-344 | comparing eLock and owner answers what a scan of the other files for a level from RESERVED up would |
| `PagerRules.AggregatesTellReaders` | emscripten/opfsvfs.c:349-351 | for a lock holder, `nShared > 1` holds exactly when another file holds a lock |
| `PagerRules.ReaderAgrees` | emscripten/opfsvfs.c:309-318 | the updates of a granted SHARED keep nShared the exact count of holders, eLock the highest level and owner the one writer |
| `PagerRules.WriterAgrees` | emscripten/opfsvfs.c:319-354 | so do the updates of a granted writing level |
| `PagerRules.ReleaseAgrees` | emscripten/opfsvfs.c:363-377 | so do the updates of an unlock to SHARED or NONE |
| `PagerRules.StepUnderPending` | emscripten/opfsvfs.c:309-375 | while w holds PENDING, any step of another file leaves w there and changes the number of readers by exactly its own departure |
| `PagerRules.ReadersOnlyLeave` | emscripten/opfsvfs.c:309-375 | over a whole run of other files under a PENDING lock: nobody reaches RESERVED, and readers left plus readers departed is the number there was |
| `PagerRules.WriterProgress` | emscripten/opfsvfs.c:336-354 | after such a run the waiting writer's EXCLUSIVE is granted exactly when all readers have departed; else it is BUSY and keeps PENDING |
| `WalRules.BusyExactlyWhenUnsafe` | emscripten/opfsvfs.c:487-525 | a range request is BUSY, changing nothing, exactly when granting the whole range would let a shared or exclusive hold meet another file's exclusive one; otherwise the whole range is granted |
| `WalRules.StepKeepsSafe` | emscripten/opfsvfs.c:462-526 | one open, close or range operation keeps the eight slots exclusive: no file holds a slot both ways, and an exclusively held slot has no other holder |
| `WalRules.RunKeepsSafe` | emscripten/opfsvfs.c:462-526 | so does every run of them by any number of files |
| `WalRules.AggregatesTell` | emscripten/opfsvfs.c:487-513 | the tests on aExclOwner and aSharedCount answer a scan of what the other files hold |
| `WalRules.SlotStepAgrees` | emscripten/opfsvfs.c:472-523 | one pass of the unlocking, sharing or excluding loop keeps aSharedCount the exact count of sharers and aExclOwner the one exclusive holder |
| `WalRules.AppliedOneMore` | emscripten/opfsvfs.c:472-523 | slot by slot, the loops amount to applying the mode to the whole range |
| `WalRules.ReleaseEverything` | emscripten/opfsvfs.c:544 | unlocking all eight slots leaves the file holding none |
| `Inodes.OpfsInode.Lock` | emscripten/opfsvfs.c:299-355 | the answer and the file's new level, case by case from the eLock of the other files: SHARED is refused only at PENDING and above, and so on; no other file's level changes, and the aggregates stay exact |
| `Inodes.OpfsInode.Decide` | emscripten/opfsvfs.c:299-355 | the branches of opfsLock on the aggregates alone |
| `Inodes.OpfsInode.Escalate` | emscripten/opfsvfs.c:338-351 | PENDING is taken, and kept with BUSY exactly when another file still holds a lock; else EXCLUSIVE is granted |
| `Inodes.OpfsInode.Unlock` | emscripten/opfsvfs.c:357-378 | the file is at the lower of its level and the one asked for; the aggregates stay exact |
| `Inodes.OpfsInode.CheckReservedLock` | emscripten/opfsvfs.c:380-388 | true exactly when another file is at RESERVED or above |
| `Inodes.OpfsInode.ReleaseSlot` | emscripten/opfsvfs.c:473-484 | one pass of the unlocking loop: the slot leaves both masks, its count and owner follow |
| `Inodes.OpfsInode.ShareSlot` | emscripten/opfsvfs.c:493-499 | one pass of the sharing loop: counted once, and not at all if held already |
| `Inodes.OpfsInode.ExcludeSlot` | emscripten/opfsvfs.c:515-523 | one pass of the exclusive loop: a shared hold is given up, the file becomes the owner |
| `Inodes.OpfsInode.MayShare` | emscripten/opfsvfs.c:488-492 | the first loop of a shared request finds an owner exactly when another file holds a slot of the range exclusively |
| `Inodes.OpfsInode.MayExclude` | emscripten/opfsvfs.c:504-514 | the first loop of an exclusive request objects exactly when another file holds any slot of the range |
| `Inodes.OpfsInode.ReleaseRange` | emscripten/opfsvfs.c:473-485 | the unlocking loop takes the range out of both masks and keeps the aggregates exact |
| `Inodes.OpfsInode.TakeShared` | emscripten/opfsvfs.c:493-500 | the sharing loop adds the range, except where the file is exclusive already |
| `Inodes.OpfsInode.TakeExclusive` | emscripten/opfsvfs.c:515-524 | the exclusive loop turns shared holds into exclusive ones over the range |
| `Inodes.OpfsInode.ShmLock` | emscripten/opfsvfs.c:462-526 | the answer from the masks of the other files, and slot by slot what the file holds afterwards, in the range as the mode says and outside it as before; no other file's masks change, and the aggregates stay exact |
| `Inodes.OpfsInode.CountMapping` | emscripten/opfsvfs.c:427-430 | a file is counted in nShmRef by its first call only |
| `Inodes.OpfsInode.MapRegion` | emscripten/opfsvfs.c:431-459 | case by case the result, the number of regions and the one handed out: an existing region is handed out as it is |
| `Inodes.OpfsInode.GrowRegions` | emscripten/opfsvfs.c:447-455 | growing keeps every region where it is; new ones are zeroed and of size szRegion; running out of memory part of the way keeps those already made |
| `Inodes.OpfsInode.ShmMap` | emscripten/opfsvfs.c:421-459 | exact result for every mix of arguments and allocation failures; old regions stay, the buffer returned is the region's own, and the file counts once in nShmRef |
| `Inodes.OpfsInode.FreeRegions` | emscripten/opfsvfs.c:549-554 | every region is freed once and none is left |
| `Inodes.OpfsInode.ShmUnmap` | emscripten/opfsvfs.c:534-557 | the file lets go of all slots; the regions go exactly when it was the last to have them mapped |
| `Inodes.OpfsInode.Attach` | emscripten/opfsvfs.c:609 | an opened file joins the counts at NONE and with no slots |
| `Inodes.OpfsInode.Detach` | emscripten/opfsvfs.c:186-194 | a file that holds nothing leaves; nRef is positive exactly while files remain |
| `Inodes.OpfsInode.NamesOnlyItsFiles` | emscripten/opfsvfs.c:120-144 | owner, aExclOwner and the mapping count never name a file that is not open on the inode |
| `Digest.ComputeDigest` | emscripten/opfs-pool.js:250-262 | the loop over the corpus computes the digest folded byte by byte, or the fixed value for a free slot |
| `Digest.AbsorbInjective` | emscripten/opfs-pool.js:254-257 | one loop step is injective in the state for a fixed byte, and in the byte for a fixed state |
| `Digest.FinishInjective` | emscripten/opfs-pool.js:258-259 | the two finishing lines are injective on the pair of accumulators |
| `Digest.SingleByteChangeDetected` | emscripten/opfs-pool.js:250-261 | two corpora with a non-zero first byte that differ in exactly one byte have different digests |
| `Words.ShrDivides` | emscripten/opfs-pool.js:122-123 | a bit is tested by dividing by its power of two |
| `Header.PersistsBits` | emscripten/opfs-pool.js:38-46 | flags persist exactly when bit 0x8 is clear and one of 0x100, 0x800, 0x4000 and 0x80000 is set |
| `Header.WrittenBytes` | emscripten/opfs-pool.js:189-191 | byte by byte: a write has its data where they were put, beyond the end too, with zeros in the gap and every other byte as before |
| `Header.ResizedBytes` | emscripten/opfs-pool.js:193-196 | byte by byte: a truncate keeps what there is up to the new size, and the rest is zero |
| `Header.ReadBytes` | emscripten/opfs-pool.js:185-187 | byte by byte: a read gives what there is and ends at the end |
| `Header.HeaderLayout` | emscripten/opfs-pool.js:143-161 | byte by byte what setPath leaves: path, zeros, big-endian flags, little-endian digest, the data from byte 4096 on; header and digest are flushed before anything is cut off |
| `Header.HeaderRoundTrip` | emscripten/opfs-pool.js:113-161 | a slot written with a path reads back as that path and flags exactly when its flags persist and the path has no byte order mark in front; a free slot reads back as free and loses what was left in it, and a slot whose flags do not persist is made free and empty |
| `Header.SetPathSettles` | emscripten/opfs-pool.js:143-161 | setting a path leaves a consistent header over the same data, whatever they are, and freeing one leaves exactly the first sector |
| `Header.SetPathInterrupted` | emscripten/opfs-pool.js:143-161 | stopped between any two calls, the file is untouched or bears the new path over the same data |
| `Header.BearerSettles` | emscripten/opfs-pool.js:113-141 | a file that bears a path is kept as it is, under the decoded path and its flags, exactly when it is in use, persistent and its digest right; otherwise it becomes a free slot of exactly one sector |
| `Header.RecoveryRestarts` | emscripten/opfs-pool.js:113-141 | stopping the recovery of one file anywhere and starting over ends the same way |
| `Header.OneByteNeverMisbinds` | emscripten/opfs-pool.js:113-141 | a header with one byte wrong binds the file to some path exactly when the byte is the first of a free slot with persistent flags, as open and rename with an empty name leave behind, and the changed corpus has the free slots' digest; the path is then that one byte |
| `Header.WriteBehindHeader` | emscripten/opfs-pool.js:189-191 | a data write leaves the first sector alone and acts on the data as a write at its offset |
| `Header.ResizeBehindHeader` | emscripten/opfs-pool.js:193-196 | so does a data truncate |
| `Header.ReadBehindHeader` | emscripten/opfs-pool.js:185-187 | a data read sees the data at its offset, short at the end |
| `SlotTables.DataCallsWrite` | emscripten/opfs-pool.js:189-196 | a write or truncate through a slot changes the bytes it should and no other slot, path or flags |
| `Bindings.UpdateRebinds` | emscripten/opfs-pool.js:152-160 | changing one slot rebinds one path in the map the slots stand for |
| `Bindings.UsedPlusFree` | emscripten/opfs-pool.js:227-234 | paths in use plus free slots is the number of slots |
| `SlotTables.ActMeans` | emscripten/opfs-pool.js:170-225 | open, remove, rename and the writes and truncates through any slot do to the map from path to contents what they mean, and through a free slot nothing |
| `SlotTables.RemovedDrops` | emscripten/opfs-pool.js:211-216 | the slot of the removed path is free and empty, and no other slot changes |
| `SlotTables.RenamedSlots` | emscripten/opfs-pool.js:218-225 | slot by slot: that of `from` gets the name and keeps its data, that of `to` is freed and emptied, no other changes |
| `SlotTables.HistoryMeans` | emscripten/opfs-pool.js:170-225 | over any history the table of slots is a plain map with room for as many paths as it has slots |
| `SlotTables.FullTells` | emscripten/opfs-pool.js:163-175 | there is no free slot exactly when the map has as many paths as there are slots |
| `SlotTables.StrayChangesNoPath` | emscripten/opfs-pool.js:189-196 | a write or truncate through a free slot changes what no path is bound to |
| `SlotTables.OpenFindsLeftover` | emscripten/opfs-pool.js:170-179 | a path that is created is bound to what its slot has left, so open creates an empty path exactly when nothing is left there |
| `SlotTables.FreedIsEmpty` | emscripten/opfs-pool.js:152-160 | a slot that has just been freed has nothing in it |
| `SlotTables.SlotUnwritten` | emscripten/opfs-pool.js:170-205 | a slot whose header a history does not write keeps its path and flags, and its data are what the history wrote through it |
| `SlotTables.CreatedPath` | emscripten/opfs-pool.js:170-205 | a path created in a slot is bound to what was written through the slot since it was freed or swept, and is empty exactly when no write or growing truncate since then has gone unanswered by a truncate to nothing |
| `SlotTables.EmptyUnlessGrown` | emscripten/opfs-pool.js:152-179 | over any history, a path created in a slot is empty exactly when the slot has not been grown since the operation that freed it, truncates to nothing counting as a fresh start |
| `SlotTables.StrayWriteComesBack` | emscripten/opfs-pool.js:170-196 | bytes written through the first free slot change no path, and the next path to be created begins with them |
| `PoolSpec.OperationsMeet` | emscripten/opfs-pool.js:170-225 | open, remove, rename and writes and truncates through any slot each keep every header in agreement with the index, do to the table of slots what they should, and to the map what they mean |
| `PoolSpec.StepsMakeAfter` | emscripten/opfs-pool.js:143-225 | the handle calls of an operation, played on the directory, give exactly the files the operation leaves |
| `PoolSpec.HistoryMeets` | emscripten/opfs-pool.js:170-225 | over any history, writes through freed slots included, the pool is the table of its slots |
| `PoolSpec.RenameMovesContents` | emscripten/opfs-pool.js:218-225 | the new name has the old one's contents and flags exactly when it fits, is not empty, and differs or the file is empty already; the old name goes unless it is the same or the new one does not fit, and no other path changes |
| `PoolSpec.StaysSwept` | emscripten/opfs-pool.js:135-205 | when every free slot is exactly one sector, an operation keeps it so exactly when it does not grow one that is free |
| `Recovery.RestartKeeps` | emscripten/opfs-pool.js:71-141 | by the bits of sqlite3.h: a path is back after a restart with its flags and contents exactly when it was bound and its flags have 0x8 clear and one of 0x100, 0x800, 0x4000 and 0x80000 set; no slot is out of order unless one of these paths starts with EF BB BF |
| `Recovery.CleanReload` | emscripten/opfs-pool.js:71-141 | init over the files of a pool, in any order, leaves every slot in good order exactly when no persistent path starts with a byte order mark; then exactly the persistent entries are back with contents and flags, every other slot is free and empty, and slots are files found plus files created |
| `Recovery.ReloadSweeps` | emscripten/opfs-pool.js:71-141 | init leaves every free slot with its header alone exactly when no file hides: accepted, not one sector long, and with a byte order mark and nothing else for a path |
| `Recovery.SettledIsSwept` | emscripten/opfs-pool.js:113-141 | the same of one file |
| `Recovery.BomHidesData` | emscripten/opfs-pool.js:113-141 | such a file with data: after init its slot counts as free with all of it still there |
| `Recovery.HiddenDataComesBack` | emscripten/opfs-pool.js:113-178 | and the next path created there begins with that data |
| `Recovery.ReloadTells` | emscripten/opfs-pool.js:71-141 | good order, bare free slots and paths that decode again are each decided one file at a time |
| `Recovery.TornSetPath` | emscripten/opfs-pool.js:143-161 | one header update stopped after k calls reloads as the map before (k = 0), as the map after, or, at k = 1 and unless the old digest happens to fit, without the slot's path; exactly when what is then accepted decodes |
| `Recovery.CrashRecovers` | emscripten/opfs-pool.js:71-225 | any operation stopped after k handle calls and followed by init: all slots in good order exactly when every accepted path decodes; then free slots are empty and the map is the persistent part of a given function of k, which is the map before, the one after, or for a rename one that has lost `to`, or `to` and `from` |
| `Recovery.PathsDecode` | emscripten/opfs-pool.js:128-140 | it is enough that no persistent path of the pool, and no new path that is to persist, starts with a byte order mark |
| `Recovery.CrashEnds` | emscripten/opfs-pool.js:170-225 | that function of k starts at the map before the operation and ends at the one after it |
| `Recovery.HistoryCrashReload` | emscripten/opfs-pool.js:71-225 | the same after any history of operations: the same function of k, from the pool that history makes, which is one of the maps the last operation may leave of that history's table |
| `Recovery.SessionsRecover` | emscripten/opfs-pool.js:71-225 | the same over any number of sessions, each started by init from exactly what the calls of the one before, cut short anywhere, amount to |
| `Recovery.InitRestarts` | emscripten/opfs-pool.js:71-141 | stopping init between any calls and running it again, in any order, gives the same map, and the same good order, bare free slots and decoding paths or lack of them, as the first run would have given, whatever the directory holds |
| `Recovery.FirstStart` | emscripten/opfs-pool.js:89-95 | a first start in an empty directory gives a pool in good order whose slots are all free |
| `Recovery.OrderDoesNotMatter` | emscripten/opfs-pool.js:71-96 | neither the map nor good order, bare free slots and decoding paths depend on the order in which the directory is enumerated or on the files created, whatever it holds |
| `OpfsPools.OpfsPool.Lookup` | emscripten/opfs-pool.js:171-172 | the slot whose path it is, or none exactly when no slot has it |
| `OpfsPools.OpfsPool.FreeIndex` | emscripten/opfs-pool.js:163-165 | the first slot with an empty path, or -1 exactly when there is none |
| `OpfsPools.OpfsPool.PutHeader` | emscripten/opfs-pool.js:143-151 | the corpus, its digest and a flush, in this order, and nothing else |
| `OpfsPools.OpfsPool.Reindex` | emscripten/opfs-pool.js:152-157 | the two directions of the index stay each other's inverses |
| `OpfsPools.OpfsPool.SetPath` | emscripten/opfs-pool.js:143-161 | refuses a path that does not fit before anything changes; else makes exactly the handle calls of the header update and keeps both directions of the index inverse |
| `OpfsPools.OpfsPool.ReadPath` | emscripten/opfs-pool.js:113-141 | reads a slot as the header specification says, with the same handle calls; a stored digest that ends early is compared with zeros in its place |
| `OpfsPools.OpfsPool.Adopt` | emscripten/opfs-pool.js:98-109 | one more slot, with the path found in its header in both directions of the index |
| `OpfsPools.OpfsPool.Init` | emscripten/opfs-pool.js:71-96 | builds the pool the reload specification describes, with max(capacity, files found) slots, and with nothing left in a free one exactly when no file found hides |
| `OpfsPools.OpfsPool.Open` | emscripten/opfs-pool.js:170-179 | the slot of a path that is there; -1, -2 or the first free slot, with what it has left, exactly as the map and its room say |
| `OpfsPools.OpfsPool.Remove` | emscripten/opfs-pool.js:211-216 | the path and only the path goes; true exactly when it was there |
| `OpfsPools.OpfsPool.Rename` | emscripten/opfs-pool.js:218-225 | the map changes as a rename should, self-rename included as it is; a name that is too long changes nothing |
| `OpfsPools.OpfsPool.Claim` | emscripten/opfs-pool.js:174-176 | the first free slot takes the path; a path that does not fit is refused after the search for room |
| `OpfsPools.OpfsPool.MoveSlot` | emscripten/opfs-pool.js:221-223 | the new name's slot is freed first, then this one renamed; the handle calls are those two updates |
| `OpfsPools.OpfsPool.Read` | emscripten/opfs-pool.js:185-187 | the data at the offset, cut at the end of the file |
| `OpfsPools.OpfsPool.Write` | emscripten/opfs-pool.js:189-191 | the slot's data have, byte by byte, the new data where they were put and the old ones elsewhere, free or not, and no other slot's change; so do the contents of the path that has the slot, if one has, and no other path's |
| `OpfsPools.OpfsPool.Truncate` | emscripten/opfs-pool.js:193-196 | the slot's data are cut or filled with zeros to the new size, free or not, and no other slot's change; so do the contents of the path that has the slot, if one has, and no other path's |
| `OpfsPools.OpfsPool.Size` | emscripten/opfs-pool.js:203-205 | the length of the contents |
| `OpfsPools.OpfsPool.Exists` | emscripten/opfs-pool.js:207-209 | true exactly for the paths of the map |
| `OpfsPools.OpfsPool.List` | emscripten/opfs-pool.js:227-229 | every path of the map, each once |
| `OpfsPools.OpfsPool.Free` | emscripten/opfs-pool.js:231-234 | free slots and paths make up the pool |
| `OpfsVfses.OpfsVfs.InodeFind` | emscripten/opfsvfs.c:158-167 | the record of the path, or NULL exactly when no listed record has it |
| `OpfsVfses.OpfsVfs.InodePush` | emscripten/opfsvfs.c:171-184 | a new record joins the list, whose paths stay distinct |
| `OpfsVfses.OpfsVfs.InodeFor` | emscripten/opfsvfs.c:158-184 | find or create: NULL exactly when the path is not listed and the allocation fails |
| `OpfsVfses.OpfsVfs.InodeUnlink` | emscripten/opfsvfs.c:195-200 | the record, and no other, leaves the linked list |
| `OpfsVfses.OpfsVfs.InodeRelease` | emscripten/opfsvfs.c:186-207 | the record is unlinked exactly when its last file leaves; nothing else is |
| `OpfsVfses.OpfsVfs.Lock` | emscripten/opfsvfs.c:299-355 | the answer and level as for the inode, over the files open on the path, with every other inode, file and the pool as before |
| `OpfsVfses.OpfsVfs.Unlock` | emscripten/opfsvfs.c:357-378 | the file is at the lower of its level and the one asked for, with every other inode, file and the pool as before |
| `OpfsVfses.OpfsVfs.CheckReservedLock` | emscripten/opfsvfs.c:380-388 | true exactly when another open file on the path is at RESERVED or above |
| `OpfsVfses.OpfsVfs.ShmLock` | emscripten/opfsvfs.c:462-526 | as the inode's, with every other inode, file and the pool as before |
| `OpfsVfses.OpfsVfs.ShmMap` | emscripten/opfsvfs.c:421-459 | as the inode's, the number of regions after a partial failure included, with every other inode, file and the pool as before |
| `OpfsVfses.OpfsVfs.ShmUnmap` | emscripten/opfsvfs.c:534-557 | as the inode's, with every other inode, file and the pool as before |
| `OpfsVfses.OpfsVfs.Openers` | emscripten/opfsvfs.c:120-144 | nRef and nShmRef are the numbers of open files on the path and of those that have mapped it |
| `OpfsVfses.OpfsVfs.SlotsMirrorPaths` | emscripten/opfsvfs.c:584-617 | two open files that kept their slots have one slot exactly when they have one inode, and the slot holds what the path is bound to |
| `OpfsVfses.OpfsVfs.TemporaryFiles` | emscripten/opfsvfs.c:593-599 | a file without a name is created and deleted on close; its other flags stay |
| `OpfsVfses.OpfsVfs.WantedTells` | emscripten/opfsvfs.c:590-599 | a given name is opened as it is, with the flags given; without one the temporary name is, with bits 4 and 8 set |
| `OpfsVfses.OpfsVfs.OpenTells` | emscripten/opfsvfs.c:584-617 | which answer is given exactly when, from the map, its room, bit 4 of the flags and the allocation; and the map afterwards, path by path |
| `OpfsVfses.OpfsVfs.Open` | emscripten/opfsvfs.c:584-617 | exact result code from the map, its room, the flags and the allocations; a path created gets what its slot has left; the file is open on its path's slot exactly when the code is OK; no other slot changes, every file keeps its slot, and only one on this very path may have it again |
| `OpfsVfses.OpfsVfs.Close` | emscripten/opfsvfs.c:211-230 | the file is gone from every record (owner, aExclOwner, counts); a record stays listed exactly while another file is open on it; regions stay until their last file goes; file by file, with delete-on-close those on the path lose their slot, free and empty now, and no other file's slot or data change; the table of slots is otherwise as it was, and so is their number |
| `OpfsVfses.OpfsVfs.Read` | emscripten/opfsvfs.c:232-247 | the buffer holds the zero-extended slice of the contents of the file's slot, which are its path's while it keeps the slot; short exactly when it reaches past the end |
| `OpfsVfses.OpfsVfs.DataOf` | emscripten/opfsvfs.c:584-617 | while an open file keeps its slot, its path is in the map and the slot holds the path's contents |
| `OpfsVfses.OpfsVfs.Write` | emscripten/opfsvfs.c:249-255 | every open file on the slot has, byte by byte, the new data where they were put and the old ones elsewhere, and no other file's data change: the contents of whatever path has the slot, the file's own exactly while it keeps it, or of no path once the slot is freed |
| `OpfsVfses.OpfsVfs.Truncate` | emscripten/opfsvfs.c:257-263 | every open file on the slot has the new size, with zeros for what was not there, and no other file's data change; the same reach |
| `Connections.WriteThenRead` | emscripten/opfsvfs.c:232-255 | after a write by one file a read by any file on the slot gives the data written where they were put, and elsewhere what it would have given before |
| `Connections.WriteThenReadPath` | emscripten/opfsvfs.c:232-255 | two files open on one path, both with their slot: what one writes the other reads |
| `OpfsVfses.OpfsVfs.FileSize` | emscripten/opfsvfs.c:274-285 | the length of the contents of the file's slot, which are its path's while it keeps the slot |
| `OpfsVfses.OpfsVfs.Access` | emscripten/opfsvfs.c:628-635 | true exactly for the paths of the map |
| `OpfsVfses.OpfsVfs.Delete` | emscripten/opfsvfs.c:619-626 | the path goes; file by file, exactly those that kept their slot on this path lose it, free and empty now, and no other file's slot or data change |
| `OpfsVfses.OpfsVfs.Rename` | emscripten/opfsvfs.c:794-800 | the map changes as a rename should; file by file, the path and data of its slot follow, and those that kept their slot on either name lose it unless the names are the same |
| `Fields.SplitJoins` | emscripten/emqueue.c:120-139 | for a positive max: the fields joined are the input, there are min(max, separators + 1) of them, and only the last has separators |
| `Fields.JoinSplits` | emscripten/emqueue.c:120-139 | fields joined and split again are the same fields, whatever the last one holds when there is no room for more |
| `Fields.SplitInPlace` | emscripten/emqueue.c:120-139 | the C strings at the returned pointers are those fields, and the buffer outside the string is untouched |
| `Events.NumberRoundTrip` | emscripten/wschan.c:190 | strtol gives back the number String wrote |
| `Events.CutLastField` | emscripten/emqueue.c:40-46 | a NUL in the last field of a packed event cuts that field and nothing else |
| `Events.CutsOnlyAtNul` | emscripten/emqueue.c:40-46 | text comes through stringToNewUTF8 whole exactly when it has no NUL |
| `Events.JsState.Poll` | emscripten/emqueue.c:40-46 | takes the oldest event and packs its fields |
| `Events.JsState.Create` | emscripten/wschan.c:65-66 | ids are handed out in sequence, so never twice |
| `Events.JsState.Append` | emscripten/wschan.c:68-79 | the event goes to the end of the queue |
| `Events.JsState.Forget` | emscripten/wschan.c:125-126 | drops the events of one id and keeps the others in order |
| `EmQueues.ScriptKeeps` | emscripten/emqueue.c:59-118 | over every sequence of watches, unwatches and nested ticks: armed exactly while one timer is pending, never two, no watcher twice, and outside a tick nobody watches without a timer |
| `EmQueues.TickKeeps` | emscripten/emqueue.c:73-86 | a tick runs each watcher listed at its start exactly once, in order, even if removed meanwhile, and leaves a timer if anybody still watches |
| `EmQueues.AppendFollows` | emscripten/emqueue.c:59-118 | one script after another is one script |
| `EmQueues.WatchKeeps` | emscripten/emqueue.c:88-105 | watching adds the watcher at the end, once, arms the timer, and panics exactly for a ninth |
| `EmQueues.UnwatchKeeps` | emscripten/emqueue.c:107-118 | unwatching removes that watcher and no other, and the last one takes its place |
| `EmQueues.EmQueue.Arm` | emscripten/emqueue.c:59-66 | a timer is created exactly when somebody watches and none is armed |
| `EmQueues.EmQueue.Watch` | emscripten/emqueue.c:88-105 | the list, armed and the timers become what the protocol says; every other watcher stays as it was, and so does a coming timer |
| `EmQueues.EmQueue.Unwatch` | emscripten/emqueue.c:107-118 | the list becomes what the protocol says, the last watcher in the hole; every other watcher stays |
| `EmQueues.EmQueue.Begin` | emscripten/emqueue.c:76-81 | the timer is spent, armed is off, and the copy is the list |
| `EmQueues.EmQueue.Tick` | emscripten/emqueue.c:73-86 | from any state and whatever the drains do, the state the protocol says, including every nested tick |
| `Delivery.StepKeepsSound` | emscripten/wschan.c:116-202 | any push, open, destroy or turn of a drain keeps: what a live id was served followed by what waits for it is what was queued for it, in order |
| `Delivery.RunKeepsSound` | emscripten/wschan.c:116-202 | so does every run; and no id is handed out twice |
| `Delivery.RunTells` | emscripten/wschan.c:56-202 | what a run queued is what its pushes say, in order; ids are handed out in sequence; and an id is live exactly when it was handed out and not destroyed |
| `Delivery.SilenceAfter` | emscripten/wschan.c:116-127 | an id that is gone is never served again, late pushes or not |
| `Delivery.DestroyedIsServedNoMore` | emscripten/wschan.c:353-369 | destroying an id fixes what it has been served: a prefix of what was queued for it |
| `Delivery.DrainedIsComplete` | emscripten/wschan.c:178-202 | with the queue empty, a live id has been served everything queued for it |
| `Events.JsState.Recorded` | emscripten/wschan.c:56-202 | the same of the running queue, from its recorded steps |
| `Events.JsState.StillSilent` | emscripten/httpx.c:180-185 | the same silence, for the queue as it is run: an id gone at some moment of its history has not been served since |
| `Events.JsState.Drained` | emscripten/wschan.c:184 | and completeness: with nothing waiting, a live id has been served all that was queued for it |
| `Registries.Registry.Find` | emscripten/wschan.c:141-152 | the record with the id, or NULL exactly when none has it |
| `Registries.Registry.Push` | emscripten/wschan.c:261-267 | a record with the new id joins the list, whose ids stay distinct |
| `Registries.Registry.Forget` | emscripten/httpx.c:221-241 | the record with the id, and no other, leaves the list |
| `WsChans.WsRoundTrip` | emscripten/wschan.c:184-196 | every socket event reaches the handler as its id and fields, separators in the text included; the text is whole exactly when it has no NUL |
| `WsChans.Unpack` | emscripten/wschan.c:184-196 | the splits in the event's own buffer give these words, the second split for close included |
| `WsChans.WsChan.Open` | emscripten/wschan.c:256-268 | a new id is listed with its command, and the drain is watched; no other watcher and no coming timer is touched |
| `WsChans.WsChan.Destroy` | emscripten/wschan.c:353-369 | the socket goes with its queued events; the drain is unwatched exactly when the list is empty, and no other watcher, coming timer or command is touched |
| `WsChans.WsChan.JsDelete` | emscripten/wschan.c:116-127 | the browser's socket and its queued events go; other events keep their order |
| `WsChans.WsChan.SockForget` | emscripten/wschan.c:154-171 | the record goes; the drain is unwatched exactly when it was the last, and nobody else is |
| `WsChans.WsChan.Push` | emscripten/wschan.c:68-79 | an event joins the queue, for live and destroyed sockets alike |
| `WsChans.WsChan.Serve` | emscripten/wschan.c:185-199 | the event's own socket, if it is listed, is called with the event's words, and nobody else is |
| `WsChans.WsChan.TakeOne` | emscripten/wschan.c:184-201 | one turn: the oldest event is dispatched exactly when its socket is still listed |
| `WsChans.WsChan.HeardInOrder` | emscripten/wschan.c:178-202 | the i-th handler call is of the command the socket of the i-th event served was opened with, and carries the words of that event: open, message with its text, close with code and reason, error with its text |
| `Httpxs.HttpRoundTrip` | emscripten/httpx.c:249-277 | every progress and done event reaches Tcl as reported; an error text may hold separators and is whole exactly when it has no NUL |
| `Httpxs.Unpack` | emscripten/httpx.c:249-277 | the split in the event's own buffer gives this news |
| `Httpxs.Httpx.Push` | emscripten/httpx.c:67-72 | progress or settlement joins the queue, for live and cleaned-up requests alike |
| `Httpxs.Httpx.Start` | emscripten/httpx.c:335-362 | a new request is listed unsettled, with what the browser queued before it was, and the drain is watched; no other watcher and no coming timer is touched |
| `Httpxs.Httpx.Cleanup` | emscripten/httpx.c:421-438 | the request goes, and with it every event queued for it, those its abort queued included; the drain is unwatched exactly when the list is empty, and no other watcher or coming timer is touched |
| `Httpxs.Httpx.CalledInOrder` | emscripten/httpx.c:249-281 | a settlement served to a request made with -command is one call of it with the id, progress served to one made with -progress one call of it with id, total and loaded, and nothing else is a call; the calls are in the order of the events |
| `Httpxs.Httpx.Query` | emscripten/httpx.c:384-402 | ok, error, timeout or reset, the code and the error are those of the last settlement served to the request; before any, the request stands as it was made |
| `Httpxs.Httpx.JsForget` | emscripten/httpx.c:180-185 | every event queued for the request goes; others keep their order |
| `Httpxs.Httpx.ReqForget` | emscripten/httpx.c:221-241 | the record goes; the drain is unwatched exactly when it was the last, and nobody else is |
| `Httpxs.Httpx.Answer` | emscripten/httpx.c:258-277 | a done event sets status, code and error before the callback is called; a callback is called exactly when the request has one for the event |
| `Httpxs.Httpx.TakeOne` | emscripten/httpx.c:249-281 | one turn: the record is brought up to date, and a callback called exactly when the request is still listed and the event is progress and it has -progress, or done and it has -command |
| `Interps.RoomForBoth` | emscripten/emqueue.c:98-100 | the two clients leave room, so watching never panics |
| `Interps.ScriptInStep` | emscripten/emqueue.c:59-118 | over everything handlers of both clients may do, nested ticks included: each client is watched exactly while its list is non-empty, outside a tick a live socket or request has one timer coming, no id is handed out twice and what it was opened with stays; and to the queue it is one script of its own protocol |
| `Interps.TickInStep` | emscripten/emqueue.c:73-86 | a tick is one of the queue's protocol: it runs each drain watched when it began once, in order, and leaves a timer if a socket or request is live |
| `Interps.TickDelivers` | emscripten/emqueue.c:73-86 | whatever the handlers do: of each client watched when a tick begins, all that waited has been taken when it ends, and every id still live has been served all of it, in order |
| `Interps.QuietTickEmpties` | emscripten/emqueue.c:73-86 | with handlers that do nothing, a tick leaves the queue of a watched client empty and queues nothing |
| `Machines.ScriptRuns` | emscripten/wschan.c:178-202 | the outcome of a script is where a machine gets that makes one command or one turn of a loop at a time, with a stack of what handlers, drains and ticks have left to do |
| `Machines.LoopRuns` | emscripten/emqueue.c:73-86 | so is that of a tick's loop |
| `Machines.WsDrainRuns` | emscripten/wschan.c:178-202 | so is that of wschan's drain: one event, then its handler to its end, then the next event |
| `Machines.HttpDrainRuns` | emscripten/httpx.c:243-282 | so is that of httpx's drain |
| `Interps.WsDrainInStep` | emscripten/wschan.c:178-202 | whatever handlers do, wschan's drain leaves none of its events behind and both clients in step with the queue |
| `Interps.HttpDrainInStep` | emscripten/httpx.c:243-282 | the same of httpx's drain |
| `Interps.Interp.OpenWs` | emscripten/wschan.c:256-268 | returns the next id, live now and with this command; the other client is as it was |
| `Interps.Interp.DestroyWs` | emscripten/wschan.c:353-369 | answers whether the socket was there, which it is no more; the other client is as it was |
| `Interps.Interp.StartHttp` | emscripten/httpx.c:335-362 | returns the next id, live now and with these callbacks; the other client is as it was |
| `Interps.Interp.CleanupHttp` | emscripten/httpx.c:421-438 | answers whether the request was there, which it is no more; the other client is as it was |
| `Interps.Interp.DrainWs` | emscripten/wschan.c:178-202 | returns with the queue empty and every live socket served all that was queued for it, in exactly the state that taking each event in turn and running its handler right after it gives, whichever client the handlers call, nested ticks included |
| `Interps.Interp.DrainHttp` | emscripten/httpx.c:243-282 | the same for requests and their callbacks |
| `Interps.Interp.Tick` | emscripten/emqueue.c:73-86 | the two drains as the list has them, each once, to exactly the state the protocol and the drains give; all that waited for a watched client is delivered, and a live socket or request has a timer afterwards |
| `Interps.Interp.Perform` | emscripten/emqueue.c:68-72 | any Tcl: exactly the state its steps give; outside a tick a live socket or request still has its timer, and what ids were opened with stays |

## Left out

- Concurrent tabs, permissions, `OpfsPoolError`, `createOpfsPool` and `close_all`: platform behaviour around the pool.
- A handle call that fails or is torn by the platform: every call is atomic, so IOERR results of reads, writes, truncates and flushes do not occur.
- Text: malformed UTF-8, and `encodeInto` stopping short of a character that does not fit in the corpus. Paths and messages are taken as already encoded.
- Integer overflow of `ofst + n` in `opfsShmLock` and of 32-bit ids and counts: integers are unbounded.
- OpfsVfses.OpfsVfs.Close: requires a file that holds WAL slots to have mapped the shared memory, as SQLite does before it locks them; `opfsClose` lets go of slots only when it unmaps, so otherwise the record would go on naming the closed file.
- EmQueues.EmQueue.Watch: Tcl_Panic is a result that ends the run; a client alone requires room for its own drain, which the two together always have.
- The bit order of SQLite's open flags beyond those the pool and `opfsOpen` test, `pOutFlags` being NULL, `opfsSync`, `opfsFileControl`, `opfsSectorSize`, `opfsDeviceCharacteristics`, `opfsShmBarrier`, time, sleep and randomness.
- `opfsFullPathname` and the spelling of temporary names: the model takes the path that results.
- The Tcl commands' argument parsing, `::opfsvfs::file list` with its prefix, reference counts and evaluation: a handler is an arbitrary script of the calls that matter here.
- Request headers in their packed form, which JavaScript takes apart with its own `split`.
- XMLHttpRequest, fetch and WebSocket themselves: they are whatever pushes events. That a request settles once rests on the browser.
- `ws_js_send`, `ws_js_state`, `ws_js_close` and `httpx_js_abort` by itself: they read or poke the browser's object and change no state kept here beyond events it may push.
- `strtol` on text that does not start with a digit: packed ids and codes always do.
- Request and socket ids are unbounded, and `::httpx` requests share one interpreter: `interp` is not a field.
- `EmQueue_Dispatch` beyond the words it passes: errors in handlers go to the background and return.
- Makefiles, `build.tcl`, start-up glue, `emscripten/tclemnotify.c` and the other wrappers: no protocol state to reason about.
