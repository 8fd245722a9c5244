/**
 * The per-path record of emscripten/opfsvfs.c: the pager lock, the WAL lock
 * slots and the shared-memory regions, kept as aggregates over the open files.
 */
module Inodes {
  import opened Words
  import opened Options
  import opened Sqlite
  import PagerRules
  import WalRules

  class OpfsFile {
    var inode: OpfsInode?
    var slot: int
    var eLock: int
    var deleteOnClose: bool
    var hasShm: bool
    var sharedShm: set<int>
    var exclShm: set<int>

    constructor ()
      ensures Blank() && inode == null
    {
      inode, slot, eLock, deleteOnClose := null, 0, NONE, false;
      hasShm, sharedShm, exclShm := false, {}, {};
    }

    /** memset */
    method Clear()
      modifies this
      ensures Blank() && inode == null && !deleteOnClose
    {
      inode, slot, eLock, deleteOnClose := null, 0, NONE, false;
      hasShm, sharedShm, exclShm := false, {}, {};
    }

    method Bind(inode: OpfsInode?, slot: int, deleteOnClose: bool)
      modifies `inode, `slot, `deleteOnClose
      ensures this.inode == inode && this.slot == slot && this.deleteOnClose == deleteOnClose
    {
      this.inode, this.slot, this.deleteOnClose := inode, slot, deleteOnClose;
    }

    /** The lock fields as memset leaves them. */
    ghost predicate Blank()
      reads `eLock, `hasShm, `sharedShm, `exclShm
    {
      eLock == NONE && !hasShm && sharedShm == {} && exclShm == {}
    }
  }

  class OpfsInode {
    const path: Path
    var nRef: int

    var nShared: int
    var eLock: int
    var owner: Option<OpfsFile>

    var aRegion: seq<array<Byte>>
    var szRegion: int
    var nShmRef: int
    var aSharedCount: seq<int>
    var aExclOwner: seq<Option<OpfsFile>>

    var next: OpfsInode?

    /** The open files, what each of them holds, and the regions allocated but not yet freed. */
    ghost var files: set<OpfsFile>
    ghost var levels: PagerRules.Levels<OpfsFile>
    ghost var table: WalRules.Table<OpfsFile>
    ghost var mapped: set<OpfsFile>
    ghost var live: set<array<Byte>>

    constructor (path: Path)
      ensures this.path == path && files == {} && next == null
      ensures Valid()
    {
      this.path := path;
      nRef, nShared, eLock, owner := 0, 0, NONE, None;
      aRegion, szRegion, nShmRef := [], 0, 0;
      aSharedCount := seq(SHM_NLOCK, _ => 0);
      aExclOwner := seq(SHM_NLOCK, _ => None);
      next := null;
      files, levels, table, mapped, live := {}, map[], map[], {}, {};
    }

    /** The ghost record says what the files' own fields say. */
    ghost predicate Tied()
      reads `files, `levels, `table, `mapped, files`eLock, files`hasShm, files`sharedShm, files`exclShm
    {
      && (forall f :: f in files ==> f in levels && f in table)
      && (forall f :: f in levels ==> f in files)
      && (forall f :: f in table ==> f in files)
      && mapped <= files
      && (forall f :: f in files ==> f.eLock == levels[f])
      && (forall f :: f in files ==> f.hasShm == (f in mapped))
      && (forall f :: f in files ==> table[f] == WalRules.Held(f.sharedShm, f.exclShm))
    }

    ghost predicate Counted()
      reads `nRef, `nShmRef, `files, `mapped
    {
      nRef == |files| && nShmRef == |mapped|
    }

    /** The regions not yet freed are those of aRegion, each listed once. */
    ghost predicate RegionsValid()
      reads `live, `aRegion, `szRegion
    {
      && live == (set r | r in aRegion)
      && (forall i, j :: 0 <= i < j < |aRegion| ==> aRegion[i] != aRegion[j])
      && (forall i :: 0 <= i < |aRegion| ==> aRegion[i].Length == szRegion)
    }

    /** Regions are there only while some file has mapped them. */
    ghost predicate RegionsInUse()
      reads `aRegion, `mapped
    {
      aRegion != [] ==> mapped != {}
    }

    /** The pager's aggregates agree with the files, and the files exclude each other as they should. */
    ghost predicate PagerValid()
      reads `nShared, `eLock, `owner, `levels
    {
      PagerRules.Agrees(levels, nShared, eLock, owner) && PagerRules.Safe(levels)
    }

    /** So do the WAL slots'. */
    ghost predicate WalValid()
      reads `aSharedCount, `aExclOwner, `table
    {
      WalRules.Agrees(table, aSharedCount, aExclOwner) && WalRules.Safe(table)
    }

    ghost predicate Valid()
      reads `nRef, `nShared, `eLock, `owner, `aRegion, `szRegion, `nShmRef, `aSharedCount, `aExclOwner
      reads `files, `levels, `table, `mapped, `live
      reads files`eLock, files`hasShm, files`sharedShm, files`exclShm
    {
      Tied() && Counted() && PagerValid() && WalValid() && RegionsValid() && RegionsInUse()
    }

    lemma TiedAt(f: OpfsFile)
      requires Tied() && f in files
      ensures f in levels && f.eLock == levels[f] && f.hasShm == (f in mapped)
      ensures f in table && table[f] == WalRules.Held(f.sharedShm, f.exclShm)
    {}

    lemma MappedAreFiles()
      requires Valid()
      ensures mapped <= files && (mapped == {} ==> aRegion == [])
      ensures forall f :: f in files ==> (f in mapped <==> f.hasShm)
    {}

    lemma LevelsOfFiles()
      requires Valid()
      ensures levels.Keys == files && forall f :: f in files ==> levels[f] == f.eLock
    {}

    /** No aggregate names a file that is not open here. */
    lemma NamesOnlyItsFiles(f: OpfsFile)
      requires Valid() && f !in files
      ensures owner != Some(f) && f !in mapped
      ensures forall i :: 0 <= i < |aExclOwner| ==> aExclOwner[i] != Some(f)
    {}

    // -- the pager lock ---------------------------------------------------------

    method SetLevel(f: OpfsFile, k: int)
      requires Tied() && f in files
      modifies `levels, f`eLock
      ensures Tied() && f.eLock == k && levels == old(levels)[f := k]
    {
      f.eLock := k;
      levels := levels[f := k];
    }

    /** The decisions of opfsLock. */
    method Decide(f: OpfsFile, eNew: int) returns (rc: Rc)
      requires Tied() && PagerValid() && f in files
      modifies `nShared, `eLock, `owner, `levels, f`eLock
      ensures Tied() && PagerValid()
      ensures (rc, levels) == PagerRules.Request(old(levels), f, eNew)
    {
      hide Tied, PagerRules.Agrees, PagerRules.Safe;
      TiedAt(f);
      PagerRules.RequestKeepsSafe<OpfsFile>(levels, f, eNew);
      if f.eLock >= eNew {
        return Ok;
      }
      PagerRules.AggregatesTellWriters<OpfsFile>(levels, nShared, eLock, owner, f, RESERVED);
      if eNew == SHARED {
        PagerRules.AggregatesTellWriters<OpfsFile>(levels, nShared, eLock, owner, f, PENDING);
        if eLock >= PENDING {
          return Busy;
        }
        PagerRules.ReaderAgrees<OpfsFile>(levels, nShared, eLock, owner, f);
        nShared := nShared + 1;
        if eLock < SHARED {
          eLock := SHARED;
        }
        SetLevel(f, SHARED);
        return Ok;
      } else if eNew == RESERVED {
        if f.eLock < SHARED {
          return Misuse;
        }
        if eLock >= RESERVED {
          return Busy;
        }
        PagerRules.WriterAgrees<OpfsFile>(levels, nShared, eLock, owner, f, RESERVED);
        eLock := RESERVED;
        owner := Some(f);
        SetLevel(f, RESERVED);
        return Ok;
      } else if eNew == PENDING || eNew == EXCLUSIVE {
        if f.eLock < SHARED {
          return Misuse;
        }
        if owner != Some(f) && eLock >= RESERVED {
          return Busy;
        }
        rc := Escalate(f, eNew);
      } else {
        return Misuse;
      }
    }

    /** The end of the PENDING and EXCLUSIVE case: PENDING is taken, and kept if readers remain. */
    method Escalate(f: OpfsFile, eNew: int) returns (rc: Rc)
      requires Tied() && PagerValid() && f in files
      requires SHARED <= f.eLock < eNew && (eNew == PENDING || eNew == EXCLUSIVE)
      requires owner == Some(f) || eLock < RESERVED
      modifies `nShared, `eLock, `owner, `levels, f`eLock
      ensures Tied() && PagerValid()
      ensures (rc, levels) == PagerRules.Request(old(levels), f, eNew)
    {
      hide Tied, PagerRules.Agrees, PagerRules.Safe;
      TiedAt(f);
      PagerRules.RequestKeepsSafe<OpfsFile>(levels, f, eNew);
      PagerRules.AggregatesTellWriters<OpfsFile>(levels, nShared, eLock, owner, f, RESERVED);
      PagerRules.WriterAgrees<OpfsFile>(levels, nShared, eLock, owner, f, PENDING);
      PagerRules.AggregatesTellReaders<OpfsFile>(levels, nShared, eLock, owner, f);
      owner := Some(f);
      if f.eLock < PENDING {
        SetLevel(f, PENDING);
        eLock := PENDING;
      }
      assert levels == old(levels)[f := PENDING];
      if eNew == PENDING {
        return Ok;
      }
      if nShared > 1 {
        return Busy;
      }
      PagerRules.WriterAgrees<OpfsFile>(levels, nShared, eLock, owner, f, EXCLUSIVE);
      assert levels[f := EXCLUSIVE] == old(levels)[f := EXCLUSIVE];
      SetLevel(f, EXCLUSIVE);
      eLock := EXCLUSIVE;
      return Ok;
    }

    /** The bookkeeping of opfsUnlock. */
    method LetGo(f: OpfsFile, eNew: int)
      requires Tied() && PagerValid() && f in files
      requires eNew == NONE || eNew == SHARED
      modifies `nShared, `eLock, `owner, `levels, f`eLock
      ensures Tied() && PagerValid()
      ensures levels == PagerRules.Release(old(levels), f, eNew)
    {
      hide Tied, PagerRules.Agrees, PagerRules.Safe;
      TiedAt(f);
      PagerRules.ReleaseKeepsSafe<OpfsFile>(levels, f, eNew);
      if f.eLock > eNew {
        PagerRules.ReleaseAgrees<OpfsFile>(levels, nShared, eLock, owner, f, eNew);
      }
      if f.eLock <= eNew {
        return;
      }
      if f.eLock > SHARED {
        owner := None;
        eLock := SHARED;
      }
      if eNew == NONE {
        nShared := nShared - 1;
        if nShared == 0 {
          eLock := NONE;
        }
      }
      SetLevel(f, eNew);
    }

    /** No other file on this inode is at level k. */
    ghost predicate OthersBelow(f: OpfsFile, k: int)
      reads `files, files`eLock
    {
      forall g :: g in files && g != f ==> g.eLock < k
    }

    /** The answer to a lock request and the file's level after it, from the levels the other files had. */
    twostate predicate LockAnswer(f: OpfsFile, eNew: int, rc: Rc)
      reads `files, files`eLock, f`eLock
    {
      && f in old(files) && files == old(files) && (forall g :: g in files && g != f ==> g.eLock == old(g.eLock))
      && if old(f.eLock) >= eNew then rc == Ok && f.eLock == old(f.eLock)
         else if eNew == SHARED then
           if old(OthersBelow(f, PENDING)) then rc == Ok && f.eLock == SHARED
           else rc == Busy && f.eLock == old(f.eLock)
         else if eNew > EXCLUSIVE || old(f.eLock) < SHARED then rc == Misuse && f.eLock == old(f.eLock)
         else if !old(OthersBelow(f, RESERVED)) then rc == Busy && f.eLock == old(f.eLock)
         else if eNew == EXCLUSIVE && !old(OthersBelow(f, SHARED)) then rc == Busy && f.eLock == PENDING
         else rc == Ok && f.eLock == eNew
    }

    /** opfsLock answers as a scan of the other files would. */
    method Lock(f: OpfsFile, eNew: int) returns (rc: Rc)
      requires Valid() && f in files
      modifies `nShared, `eLock, `owner, `levels, f`eLock
      ensures Valid()
      ensures (rc, levels) == PagerRules.Request(old(levels), f, eNew)
      ensures LockAnswer(f, eNew, rc)
    {
      hide Tied, Counted, PagerValid, WalValid, RegionsValid, RegionsInUse, PagerRules.Request;
      LevelsOfFiles();
      LevelsTell(f);
      PagerRules.RequestTells<OpfsFile>(levels, f, eNew);
      rc := Decide(f, eNew);
      LevelsOfFiles();
    }

    lemma LevelsTell(f: OpfsFile)
      requires Valid() && f in files
      ensures forall k {:trigger OthersBelow(f, k)} :: OthersBelow(f, k) <==> !PagerRules.OtherAtLeast(levels, f, k)
      ensures PagerRules.Safe(levels)
    {
      LevelsOfFiles();
    }

    method Unlock(f: OpfsFile, eNew: int)
      requires Valid() && f in files
      requires eNew == NONE || eNew == SHARED
      modifies `nShared, `eLock, `owner, `levels, f`eLock
      ensures Valid() && (eNew == NONE ==> f.eLock == NONE)
      ensures f.eLock == if old(f.eLock) > eNew then eNew else old(f.eLock)
      ensures levels == PagerRules.Release(old(levels), f, eNew)
    {
      hide Tied, Counted, PagerValid, WalValid, RegionsValid, RegionsInUse, PagerRules.Release;
      TiedAt(f);
      LetGo(f, eNew);
      LevelAfter(f, old(levels), eNew);
    }

    lemma LevelAfter(f: OpfsFile, before: PagerRules.Levels<OpfsFile>, eNew: int)
      requires Tied() && PagerValid() && f in files && f in before && levels == PagerRules.Release(before, f, eNew)
      ensures f.eLock == (if before[f] > eNew then eNew else before[f]) && (eNew == NONE ==> f.eLock == NONE)
    {}

    method CheckReservedLock(f: OpfsFile) returns (reserved: bool)
      requires Valid() && f in files
      ensures reserved <==> PagerRules.OtherAtLeast(levels, f, RESERVED)
    {
      TiedAt(f);
      PagerRules.AggregatesTellWriters<OpfsFile>(levels, nShared, eLock, owner, f, RESERVED);
      reserved := eLock >= RESERVED && owner != Some(f);
    }

    // -- the WAL lock slots -------------------------------------------------------

    /** Both masks of a file. */
    method SetMasks(f: OpfsFile, h: WalRules.Held)
      requires Tied() && f in files
      modifies `table, f`sharedShm, f`exclShm
      ensures Tied() && table == old(table)[f := h]
    {
      f.sharedShm := h.shared;
      f.exclShm := h.excl;
      table := table[f := h];
    }

    /** The aggregates alone; that files exclude each other is a matter of the whole request. */
    ghost predicate SlotsAgree()
      reads `aSharedCount, `aExclOwner, `table
    {
      WalRules.Agrees(table, aSharedCount, aExclOwner)
    }

    method ReleaseSlot(f: OpfsFile, i: int)
      requires Tied() && SlotsAgree() && f in files && 0 <= i < |aExclOwner|
      modifies `aSharedCount, `aExclOwner, `table, f`sharedShm, f`exclShm
      ensures Tied() && SlotsAgree() && table == WalRules.Applied(old(table), f, {i}, ShmUnlock)
    {
      hide Tied, WalRules.Agrees;
      TiedAt(f);
      SlotsInRange();
      WalRules.SlotStepAgrees<OpfsFile>(table, aSharedCount, aExclOwner, f, i, ShmUnlock);
      assert table[f := table[f]] == table;
      if i in f.exclShm {
        aExclOwner := aExclOwner[i := None];
      }
      if i in f.sharedShm {
        aSharedCount := aSharedCount[i := aSharedCount[i] - 1];
      }
      SetMasks(f, WalRules.Held(f.sharedShm - {i}, f.exclShm - {i}));
    }

    /** The unlocking loop of opfsShmLock. */
    method ReleaseRange(f: OpfsFile, ofst: int, n: int)
      requires Tied() && SlotsAgree() && f in files
      requires 0 <= ofst && 0 < n && ofst + n <= SHM_NLOCK
      modifies `aSharedCount, `aExclOwner, `table, f`sharedShm, f`exclShm
      ensures Tied() && SlotsAgree()
      ensures table == WalRules.Applied(old(table), f, WalRules.Range(ofst, ofst + n), ShmUnlock)
    {
      hide Tied, SlotsAgree, WalRules.Applied, WalRules.Range;
      TiedAt(f);
      SlotsInRange();
      ghost var t: WalRules.Table<OpfsFile> := table;
      WalRules.AppliedOneMore<OpfsFile>(t, f, ofst, ofst, ShmUnlock);
      for i := ofst to ofst + n
        invariant Tied() && SlotsAgree() && |aExclOwner| == SHM_NLOCK
        invariant table == WalRules.Applied(t, f, WalRules.Range(ofst, i), ShmUnlock)
      {
        WalRules.AppliedOneMore<OpfsFile>(t, f, ofst, i, ShmUnlock);
        ReleaseSlot(f, i);
        SlotsInRange();
      }
    }

    method ShareSlot(f: OpfsFile, i: int)
      requires Tied() && SlotsAgree() && f in files && 0 <= i < |aExclOwner|
      modifies `aSharedCount, `aExclOwner, `table, f`sharedShm, f`exclShm
      ensures Tied() && SlotsAgree() && table == WalRules.Applied(old(table), f, {i}, ShmShared)
    {
      hide Tied, WalRules.Agrees, WalRules.Apply, WalRules.Range;
      TiedAt(f);
      SlotsInRange();
      WalRules.SlotStepAgrees<OpfsFile>(table, aSharedCount, aExclOwner, f, i, ShmShared);
      assert table[f := table[f]] == table;
      if i !in f.sharedShm && i !in f.exclShm {
        aSharedCount := aSharedCount[i := aSharedCount[i] + 1];
        SetMasks(f, WalRules.Held(f.sharedShm + {i}, f.exclShm));
      }
    }

    /** The granting loop for a shared request. */
    method TakeShared(f: OpfsFile, ofst: int, n: int)
      requires Tied() && SlotsAgree() && f in files
      requires 0 <= ofst && 0 < n && ofst + n <= SHM_NLOCK
      modifies `aSharedCount, `aExclOwner, `table, f`sharedShm, f`exclShm
      ensures Tied() && SlotsAgree()
      ensures table == WalRules.Applied(old(table), f, WalRules.Range(ofst, ofst + n), ShmShared)
    {
      hide Tied, SlotsAgree, WalRules.Applied, WalRules.Range;
      TiedAt(f);
      SlotsInRange();
      ghost var t: WalRules.Table<OpfsFile> := table;
      WalRules.AppliedOneMore<OpfsFile>(t, f, ofst, ofst, ShmShared);
      for i := ofst to ofst + n
        invariant Tied() && SlotsAgree() && |aExclOwner| == SHM_NLOCK
        invariant table == WalRules.Applied(t, f, WalRules.Range(ofst, i), ShmShared)
      {
        WalRules.AppliedOneMore<OpfsFile>(t, f, ofst, i, ShmShared);
        ShareSlot(f, i);
        SlotsInRange();
      }
    }

    method ExcludeSlot(f: OpfsFile, i: int)
      requires Tied() && SlotsAgree() && f in files && 0 <= i < |aExclOwner|
      requires aExclOwner[i] in {None, Some(f)}
      modifies `aSharedCount, `aExclOwner, `table, f`sharedShm, f`exclShm
      ensures Tied() && SlotsAgree() && table == WalRules.Applied(old(table), f, {i}, ShmExclusive)
      ensures aExclOwner == old(aExclOwner)[i := Some(f)]
    {
      hide Tied, WalRules.Agrees;
      TiedAt(f);
      SlotsInRange();
      WalRules.SlotStepAgrees<OpfsFile>(table, aSharedCount, aExclOwner, f, i, ShmExclusive);
      assert table[f := table[f]] == table;
      if i in f.sharedShm {
        aSharedCount := aSharedCount[i := aSharedCount[i] - 1];
      }
      aExclOwner := aExclOwner[i := Some(f)];
      SetMasks(f, WalRules.Held(f.sharedShm - {i}, f.exclShm + {i}));
    }

    /** The granting loop for an exclusive request: a shared hold is turned into an exclusive one. */
    method TakeExclusive(f: OpfsFile, ofst: int, n: int)
      requires Tied() && SlotsAgree() && f in files
      requires 0 <= ofst && 0 < n && ofst + n <= SHM_NLOCK
      requires forall j :: ofst <= j < ofst + n && j < |aExclOwner| ==> aExclOwner[j] in {None, Some(f)}
      modifies `aSharedCount, `aExclOwner, `table, f`sharedShm, f`exclShm
      ensures Tied() && SlotsAgree()
      ensures table == WalRules.Applied(old(table), f, WalRules.Range(ofst, ofst + n), ShmExclusive)
    {
      hide Tied, SlotsAgree, WalRules.Applied, WalRules.Range;
      TiedAt(f);
      SlotsInRange();
      ghost var t: WalRules.Table<OpfsFile> := table;
      WalRules.AppliedOneMore<OpfsFile>(t, f, ofst, ofst, ShmExclusive);
      for i := ofst to ofst + n
        invariant Tied() && SlotsAgree() && |aExclOwner| == SHM_NLOCK
        invariant forall j :: i <= j < ofst + n ==> aExclOwner[j] in {None, Some(f)}
        invariant table == WalRules.Applied(t, f, WalRules.Range(ofst, i), ShmExclusive)
      {
        WalRules.AppliedOneMore<OpfsFile>(t, f, ofst, i, ShmExclusive);
        ExcludeSlot(f, i);
        SlotsInRange();
      }
    }

    lemma SlotsInRange()
      requires SlotsAgree()
      ensures |aSharedCount| == |aExclOwner| == SHM_NLOCK
    {}

    /** The decisions of opfsShmLock. */
    method DecideSlots(f: OpfsFile, ofst: int, n: int, mode: ShmMode) returns (rc: Rc)
      requires Tied() && SlotsAgree() && f in files
      modifies `aSharedCount, `aExclOwner, `table, f`sharedShm, f`exclShm
      ensures Tied() && SlotsAgree()
      ensures (rc, table) == WalRules.Request(old(table), f, ofst, n, mode)
    {
      hide Tied, SlotsAgree;
      TiedAt(f);
      SlotsInRange();
      if ofst < 0 || n <= 0 || ofst + n > SHM_NLOCK {
        return Misuse;
      }
      match mode
      case ShmUnlock =>
        ReleaseRange(f, ofst, n);
        return Ok;
      case ShmShared =>
        var free := MayShare(f, ofst, n);
        if !free {
          return Busy;
        }
        TakeShared(f, ofst, n);
        return Ok;
      case ShmExclusive =>
        var free := MayExclude(f, ofst, n);
        if !free {
          return Busy;
        }
        TakeExclusive(f, ofst, n);
        return Ok;
    }

    /** The testing loop for a shared request. */
    method MayShare(f: OpfsFile, ofst: int, n: int) returns (free: bool)
      requires SlotsAgree() && f in table
      requires 0 <= ofst && 0 < n && ofst + n <= SHM_NLOCK
      ensures free <==> !WalRules.OtherHoldsExclusively(table, f, WalRules.Range(ofst, ofst + n))
    {
      hide SlotsAgree;
      SlotsInRange();
      for i := ofst to ofst + n
        invariant !WalRules.OtherHoldsExclusively(table, f, WalRules.Range(ofst, i))
      {
        SlotTells(f, i);
        WalRules.RangeGrows(ofst, i);
        if aExclOwner[i] != None && aExclOwner[i] != Some(f) {
          assert i in WalRules.Range(ofst, ofst + n);
          return false;
        }
      }
      return true;
    }

    /** The testing loop for an exclusive request. */
    method MayExclude(f: OpfsFile, ofst: int, n: int) returns (free: bool)
      requires Tied() && SlotsAgree() && f in files
      requires 0 <= ofst && 0 < n && ofst + n <= SHM_NLOCK
      ensures free <==> !WalRules.OtherHolds(table, f, WalRules.Range(ofst, ofst + n))
      ensures free ==> forall j :: ofst <= j < ofst + n && j < |aExclOwner| ==> aExclOwner[j] in {None, Some(f)}
    {
      hide Tied, SlotsAgree;
      TiedAt(f);
      SlotsInRange();
      for i := ofst to ofst + n
        invariant !WalRules.OtherHolds(table, f, WalRules.Range(ofst, i))
        invariant forall j :: ofst <= j < i ==> aExclOwner[j] in {None, Some(f)}
      {
        SlotTells(f, i);
        WalRules.RangeGrows(ofst, i);
        var mine := if i in f.sharedShm then 1 else 0;
        if aExclOwner[i] != None && aExclOwner[i] != Some(f) {
          assert i in WalRules.Range(ofst, ofst + n);
          return false;
        }
        if aSharedCount[i] > mine {
          assert i in WalRules.Range(ofst, ofst + n);
          return false;
        }
      }
      return true;
    }

    lemma SlotTells(f: OpfsFile, i: int)
      requires SlotsAgree() && f in table && 0 <= i < |aExclOwner| && i < |aSharedCount|
      ensures WalRules.OtherHoldsExclusively(table, f, {i}) <==> aExclOwner[i] != None && aExclOwner[i] != Some(f)
      ensures WalRules.OtherHolds(table, f, {i}) <==>
              WalRules.OtherHoldsExclusively(table, f, {i}) || aSharedCount[i] > (if i in table[f].shared then 1 else 0)
    {
      WalRules.AggregatesTell<OpfsFile>(table, aSharedCount, aExclOwner, f, i);
    }

    /** Another file on this inode holds a slot from ofst on, exclusively or at all. */
    ghost predicate HeldElsewhere(f: OpfsFile, ofst: int, n: int, exclusively: bool)
      reads `files, files`sharedShm, files`exclShm
    {
      exists g, i :: g in files && g != f && ofst <= i < ofst + n
                     && (i in g.exclShm || (!exclusively && i in g.sharedShm))
    }

    /** The answer to a request for slots and what the file holds after it, from what the other files held. */
    twostate predicate SlotAnswer(f: OpfsFile, ofst: int, n: int, mode: ShmMode, rc: Rc)
      reads `files, files`sharedShm, files`exclShm, f`sharedShm, f`exclShm
    {
      && f in old(files) && files == old(files)
      && (forall g :: g in files && g != f ==> g.sharedShm == old(g.sharedShm) && g.exclShm == old(g.exclShm))
      && rc == (if ofst < 0 || n <= 0 || ofst + n > 8 then Misuse
                else if mode.ShmShared? && old(HeldElsewhere(f, ofst, n, true)) then Busy
                else if mode.ShmExclusive? && old(HeldElsewhere(f, ofst, n, false)) then Busy
                else Ok)
      && (rc != Ok ==> f.sharedShm == old(f.sharedShm) && f.exclShm == old(f.exclShm))
      && (rc == Ok ==> forall i ::
            WalRules.HoldsAfter(old(WalRules.Held(f.sharedShm, f.exclShm)), WalRules.Held(f.sharedShm, f.exclShm),
                                ofst, n, mode, i))
    }

    lemma MasksTell(f: OpfsFile, ofst: int, n: int)
      requires Valid() && f in files
      ensures table.Keys == files && forall g :: g in files ==> table[g] == WalRules.Held(g.sharedShm, g.exclShm)
      ensures HeldElsewhere(f, ofst, n, true) <==> WalRules.HeldElsewhere(table, f, ofst, n, true)
      ensures HeldElsewhere(f, ofst, n, false) <==> WalRules.HeldElsewhere(table, f, ofst, n, false)
    {}

    /** opfsShmLock answers as a scan of what the other files hold would. */
    method ShmLock(f: OpfsFile, ofst: int, n: int, mode: ShmMode) returns (rc: Rc)
      requires Valid() && f in files
      modifies `aSharedCount, `aExclOwner, `table, f`sharedShm, f`exclShm
      ensures Valid()
      ensures (rc, table) == WalRules.Request(old(table), f, ofst, n, mode)
      ensures SlotAnswer(f, ofst, n, mode, rc)
    {
      hide Tied, Counted, PagerValid, RegionsValid, RegionsInUse, WalRules.Request, WalRules.Agrees, WalRules.Safe;
      hide HeldElsewhere, WalRules.HeldElsewhere, WalRules.HoldsAfter;
      TiedAt(f);
      MasksTell(f, ofst, n);
      WalRules.RequestKeepsSafe<OpfsFile>(table, f, ofst, n, mode);
      WalRules.RequestTells<OpfsFile>(table, f, ofst, n, mode);
      rc := DecideSlots(f, ofst, n, mode);
      MasksTell(f, ofst, n);
    }

    // -- the WAL's shared memory --------------------------------------------------

    /** sqlite3_free on a region: it must not have been freed before. */
    method FreeRegion(r: array<Byte>)
      requires r in live
      modifies `live
      ensures live == old(live) - {r}
    {
      live := live - {r};
    }

    /** The freeing loop: every region is freed once, and none is left. */
    method FreeRegions()
      requires RegionsValid()
      modifies `aRegion, `live
      ensures aRegion == [] && RegionsValid()
    {
      for i := 0 to |aRegion|
        invariant aRegion == old(aRegion)
        invariant live == (set r | r in aRegion[i..])
      {
        assert aRegion[i..] == [aRegion[i]] + aRegion[i + 1..];
        FreeRegion(aRegion[i]);
      }
      aRegion := [];
    }

    ghost predicate Zeroed(from: nat)
      reads `aRegion, aRegion
    {
      forall i, k :: from <= i < |aRegion| && 0 <= k < aRegion[i].Length ==> aRegion[i][k] == 0
    }

    /** The allocating loop of opfsShmMap: only the first `mallocs` allocations succeed. */
    method GrowRegions(iRegion: nat, mallocs: nat) returns (rc: Rc)
      requires RegionsValid() && szRegion >= 0 && iRegion >= |aRegion|
      modifies `aRegion, `live
      ensures RegionsValid() && old(aRegion) <= aRegion
      ensures Zeroed(|old(aRegion)|)
      ensures forall r :: r in aRegion && r !in old(aRegion) ==> fresh(r)
      ensures rc == if mallocs <= iRegion - |old(aRegion)| then NoMem else Ok
      ensures |aRegion| == if rc == Ok then iRegion + 1 else |old(aRegion)| + mallocs
    {
      var n := |aRegion|;
      while |aRegion| <= iRegion
        invariant n <= |aRegion| <= iRegion + 1 && |aRegion| - n <= mallocs
        invariant RegionsValid() && old(aRegion) <= aRegion && Zeroed(n)
        invariant forall r :: r in aRegion && r !in old(aRegion) ==> fresh(r)
      {
        if |aRegion| - n == mallocs {
          return NoMem;
        }
        var region := new Byte[szRegion](_ => 0);
        aRegion := aRegion + [region];
        live := live + {region};
      }
      return Ok;
    }

    /** hasShm, and with it the set of files that have mapped the shared memory. */
    method SetMapped(f: OpfsFile, on: bool)
      requires Tied() && f in files
      modifies `mapped, f`hasShm
      ensures Tied() && f.hasShm == on
      ensures mapped == if on then old(mapped) + {f} else old(mapped) - {f}
    {
      f.hasShm := on;
      mapped := if on then mapped + {f} else mapped - {f};
    }

    /** The first call of opfsShmMap on a file counts it; later ones change nothing. */
    method CountMapping(f: OpfsFile)
      requires Tied() && Counted() && f in files
      modifies `nShmRef, `mapped, f`hasShm
      ensures Tied() && Counted() && mapped == old(mapped) + {f}
    {
      hide Tied;
      TiedAt(f);
      if !f.hasShm {
        nShmRef := nShmRef + 1;
        SetMapped(f, true);
      }
    }

    method UncountMapping(f: OpfsFile)
      requires Tied() && Counted() && f in files && f.hasShm
      modifies `nShmRef, `mapped, f`hasShm
      ensures Tied() && Counted() && !f.hasShm && mapped == old(mapped) - {f}
      ensures nShmRef == 0 <==> mapped == {}
    {
      hide Tied;
      TiedAt(f);
      nShmRef := nShmRef - 1;
      SetMapped(f, false);
      assert |mapped| == 0 <==> mapped == {};
    }

    /**
     * The answer of opfsShmMap, the regions there are after it and the one handed
     * out. A size that differs from the regions' is refused; growing may run out of
     * memory part of the way.
     */
    twostate predicate MapTold(iRegion: nat, szRegion: nat, bExtend: bool, reallocOk: bool, mallocs: nat,
                               rc: Rc, new pp: array?<Byte>)
      reads `aRegion, `szRegion
    {
      var n := |old(aRegion)|;
      && old(aRegion) <= aRegion
      && if n > 0 && old(this.szRegion) != szRegion then rc == ShmMapError && |aRegion| == n && pp == null
         else if iRegion < n then rc == Ok && |aRegion| == n && pp == old(aRegion)[iRegion]
         else if !bExtend then rc == Ok && |aRegion| == n && pp == null
         else if !reallocOk then rc == NoMem && |aRegion| == n && pp == null
         else if n + mallocs <= iRegion then rc == NoMem && |aRegion| == n + mallocs && pp == null
         else rc == Ok && |aRegion| == iRegion + 1 && pp == aRegion[iRegion]
    }

    /** opfsShmMap once the file has been counted. */
    method MapRegion(iRegion: nat, szRegion: nat, bExtend: bool, reallocOk: bool, mallocs: nat)
      returns (rc: Rc, pp: array?<Byte>)
      requires RegionsValid()
      modifies `szRegion, `aRegion, `live
      ensures RegionsValid() && old(aRegion) <= aRegion && Zeroed(|old(aRegion)|)
      ensures forall r :: r in aRegion && r !in old(aRegion) ==> fresh(r)
      ensures MapTold(iRegion, szRegion, bExtend, reallocOk, mallocs, rc, pp)
      ensures pp != null ==> rc == Ok && pp.Length == szRegion
    {
      pp := null;
      if aRegion != [] && this.szRegion != szRegion {
        return ShmMapError, null;
      }
      this.szRegion := szRegion;
      if iRegion >= |aRegion| {
        if !bExtend {
          return Ok, null;
        }
        if !reallocOk {
          return NoMem, null;
        }
        rc := GrowRegions(iRegion, mallocs);
        if rc != Ok {
          return;
        }
      }
      return Ok, aRegion[iRegion];
    }

    /**
     * Map region iRegion, growing the list of regions if asked; both allocations
     * may fail. Growing leaves every region where it was, and the new ones are zeroed.
     */
    method ShmMap(f: OpfsFile, iRegion: nat, szRegion: nat, bExtend: bool, reallocOk: bool, mallocs: nat)
      returns (rc: Rc, pp: array?<Byte>)
      requires Valid() && f in files
      modifies `nShmRef, `szRegion, `aRegion, `live, `mapped, f`hasShm
      ensures Valid() && f.hasShm && mapped == old(mapped) + {f}
      ensures old(aRegion) <= aRegion && Zeroed(|old(aRegion)|)
      ensures forall r :: r in aRegion && r !in old(aRegion) ==> fresh(r)
      ensures MapTold(iRegion, szRegion, bExtend, reallocOk, mallocs, rc, pp)
      ensures pp != null ==> rc == Ok && pp.Length == szRegion
    {
      hide Tied, Counted, PagerValid, WalValid, RegionsValid, Zeroed;
      CountMapping(f);
      TiedAt(f);
      rc, pp := MapRegion(iRegion, szRegion, bExtend, reallocOk, mallocs);
    }

    /** What opfsShmUnmap does to the regions. */
    method DropMapping(f: OpfsFile)
      requires Tied() && Counted() && RegionsValid() && f in files && f.hasShm
      modifies `nShmRef, `aRegion, `live, `mapped, f`hasShm
      ensures Tied() && Counted() && RegionsValid() && RegionsInUse()
      ensures !f.hasShm && mapped == old(mapped) - {f}
      ensures aRegion == if mapped == {} then [] else old(aRegion)
    {
      hide Tied, Counted, RegionsValid;
      UncountMapping(f);
      if nShmRef == 0 {
        FreeRegions();
      }
    }

    /** The last file to unmap frees every region; the file's slots are released first. */
    method ShmUnmap(f: OpfsFile)
      requires Valid() && f in files
      modifies `nShmRef, `aRegion, `live, `mapped, `aSharedCount, `aExclOwner, `table
      modifies f`hasShm, f`sharedShm, f`exclShm
      ensures Valid() && !f.hasShm && mapped == old(mapped) - {f}
      ensures table == if old(f.hasShm) then old(table)[f := WalRules.NOTHING] else old(table)
      ensures if old(f.hasShm) then f.sharedShm == {} && f.exclShm == {}
              else f.sharedShm == old(f.sharedShm) && f.exclShm == old(f.exclShm)
      ensures aRegion == if mapped == {} then [] else old(aRegion)
    {
      hide Tied, Counted, PagerValid, WalValid, RegionsValid, RegionsInUse;
      TiedAt(f);
      if !f.hasShm {
        RegionsEnd();
        assert mapped - {f} == mapped;
        return;
      }
      ReleaseAll(f);
      TiedAt(f);
      DropMapping(f);
    }

    lemma RegionsEnd()
      requires RegionsInUse()
      ensures mapped == {} ==> aRegion == []
    {}

    method ReleaseAll(f: OpfsFile)
      requires Tied() && WalValid() && f in files
      modifies `aSharedCount, `aExclOwner, `table, f`sharedShm, f`exclShm
      ensures Tied() && WalValid() && table == old(table)[f := WalRules.NOTHING]
    {
      hide Tied, WalRules.Agrees, WalRules.Safe;
      TiedAt(f);
      WalRules.RequestKeepsSafe<OpfsFile>(table, f, 0, SHM_NLOCK, ShmUnlock);
      WalRules.ReleaseEverything<OpfsFile>(table, f);
      var rc := DecideSlots(f, 0, SHM_NLOCK, ShmUnlock);
    }

    // -- opening and closing --------------------------------------------------------

    /** What opfsOpen adds to the ghost record. */
    method Enter(f: OpfsFile)
      requires Tied() && f !in files && f.Blank()
      modifies `files, `levels, `table
      ensures Tied() && files == old(files) + {f}
      ensures levels == old(levels)[f := NONE] && table == old(table)[f := WalRules.NOTHING]
    {
      files, levels, table := files + {f}, levels[f := NONE], table[f := WalRules.NOTHING];
    }

    method Leave(f: OpfsFile)
      requires Tied() && f in files && f.Blank()
      modifies `files, `levels, `table
      ensures Tied() && files == old(files) - {f}
      ensures levels == old(levels) - {f} && table == old(table) - {f}
    {
      files, levels, table := files - {f}, levels - {f}, table - {f};
    }

    /** nRef++ for a file that opfsOpen has just zeroed. */
    method Attach(f: OpfsFile)
      requires Valid() && f !in files && f.Blank()
      modifies `nRef, `files, `levels, `table
      ensures Valid() && files == old(files) + {f}
      ensures levels == old(levels)[f := NONE] && table == old(table)[f := WalRules.NOTHING]
    {
      hide Tied, RegionsValid, RegionsInUse, PagerRules.Agrees, PagerRules.Safe, WalRules.Agrees, WalRules.Safe;
      NotListed(f);
      PagerRules.OpenAgrees<OpfsFile>(levels, nShared, eLock, owner, f);
      WalRules.OpenAgrees<OpfsFile>(table, aSharedCount, aExclOwner, f);
      nRef := nRef + 1;
      Enter(f);
    }

    lemma NotListed(f: OpfsFile)
      requires Tied() && f !in files
      ensures f !in levels && f !in table
    {}

    /** --nRef for a file that has let go of everything. */
    method Detach(f: OpfsFile)
      requires Valid() && f in files && f.Blank()
      modifies `nRef, `files, `levels, `table
      ensures Valid() && files == old(files) - {f} && (nRef > 0 <==> files != {})
      ensures levels == old(levels) - {f} && table == old(table) - {f}
    {
      hide Tied, RegionsValid, RegionsInUse, PagerRules.Agrees, PagerRules.Safe, WalRules.Agrees, WalRules.Safe;
      TiedAt(f);
      PagerRules.CloseAgrees<OpfsFile>(levels, nShared, eLock, owner, f);
      WalRules.CloseAgrees<OpfsFile>(table, aSharedCount, aExclOwner, f);
      nRef := nRef - 1;
      Leave(f);
      assert |files| == 0 <==> files == {};
    }

    /** The end of inodeRelease: the regions go, if any are left. */
    method Dispose()
      requires Valid()
      modifies `aRegion, `live
      ensures aRegion == [] && live == {}
    {
      FreeRegions();
    }
  }
}
