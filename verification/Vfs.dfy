/**
 * The VFS of emscripten/opfsvfs.c: the linked list of inodes, the files open on
 * them, and the pool underneath.
 */
module OpfsVfses {
  import opened Words
  import opened Options
  import opened Sqlite
  import opened Inodes
  import PagerRules
  import WalRules
  import opened Sequences
  import opened Header
  import opened Bindings
  import opened SlotTables
  import opened PoolSpec
  import opened OpfsPools

  /** OPFS_MAX_PATH, which SQLite enforces through mxPathname. */
  const OPFS_MAX_PATH := 480

  predicate OncePerPath(list: seq<OpfsInode>) {
    forall i, j :: 0 <= i < j < |list| ==> list[i] != list[j] && list[i].path != list[j].path
  }

  class OpfsVfs {
    var inodes: OpfsInode?
    const pool: OpfsPool

    /** The inodes in list order, and every file that is open. */
    ghost var list: seq<OpfsInode>
    ghost var open: set<OpfsFile>

    constructor (pool: OpfsPool)
      requires pool.Valid()
      ensures this.pool == pool && Valid() && open == {} && Bound()
    {
      inodes := null;
      this.pool := pool;
      list, open := [], {};
    }

    // -- invariants ---------------------------------------------------------------

    /** The next pointers spell out the ghost list, which names each path once. */
    ghost predicate Linked()
      reads `inodes, `list, list`next
    {
      && inodes == Following(list, -1, null)
      && (forall i :: 0 <= i < |list| ==> list[i].next == Following(list, i, null))
      && OncePerPath(list)
    }

    /** A file is open exactly when some listed inode counts it, and that inode is its own. */
    ghost predicate Registered()
      reads `list, `open, list`files, open`inode
    {
      && (forall n :: n in list ==> n.path != [] && n.files <= open)
      && (forall f :: f in open ==> f.inode != null && f.inode in list && f in f.inode.files)
      && (forall n, f :: n in list && f in n.files ==> f.inode == n)
    }

    /** An inode is listed only while some file is open on it. */
    ghost predicate Populated()
      reads `list, list`files
    {
      forall n :: n in list ==> n.files != {}
    }

    ghost predicate InodesValid()
      reads `list, `open, list, open`eLock, open`hasShm, open`sharedShm, open`exclShm
    {
      forall n :: n in list ==> n.files <= open && n.Valid()
    }

    ghost predicate SlotsExist()
      reads `open, open`slot, pool`names
    {
      forall f :: f in open ==> 0 <= f.slot < |pool.names|
    }

    /** What holds of the inodes and files between any two calls. */
    ghost predicate Consistent()
      reads `inodes, `list, `open, list, pool`names
      reads open`inode, open`slot, open`eLock, open`hasShm, open`sharedShm, open`exclShm
    {
      Linked() && Registered() && Populated() && InodesValid() && SlotsExist()
    }

    ghost predicate Valid()
      reads this, list, open, pool, pool.dir
    {
      Consistent() && pool.Valid()
    }

    /** The path a file was opened on. */
    ghost function OwnPath(f: OpfsFile): Path
      reads f`inode
    {
      if f.inode == null then [] else f.inode.path
    }

    /** The path that has the file's slot now, or none. */
    ghost function SlotPath(f: OpfsFile): Path
      reads f`slot, pool`paths
    {
      if 0 <= f.slot < |pool.paths| then pool.paths[f.slot] else []
    }

    /** What is in the file's slot. */
    ghost function SlotData(f: OpfsFile): Bytes
      reads f`slot, pool, pool.dir
    {
      if pool.Valid() && 0 <= f.slot < |pool.names| then pool.Contents(f.slot) else []
    }

    /** The file's slot still has the file's path. */
    ghost predicate Keeps(f: OpfsFile)
      reads f`inode, f`slot, pool`paths
    {
      SlotPath(f) == OwnPath(f) != []
    }

    ghost predicate Bound()
      reads `open, open`inode, open`slot, pool`paths
    {
      forall f :: f in open ==> Keeps(f)
    }

    /** Connections on one path share one slot, and different paths have different slots. */
    lemma SlotsMirrorPaths(f: OpfsFile, g: OpfsFile)
      requires Valid() && f in open && g in open && Keeps(f) && Keeps(g)
      ensures f.slot == g.slot <==> f.inode == g.inode
      ensures f.inode.path in pool.Files() && pool.Files()[f.inode.path].data == pool.Contents(f.slot)
    {
      hide InodesValid, Populated;
      pool.ContentsAreBound(f.slot);
      pool.ContentsAreBound(g.slot);
    }

    // -- locks and shared memory of an open file --------------------------------------

    /** Only its own inode counts a file. */
    lemma OnlyItsInode(f: OpfsFile)
      requires Registered() && f in open
      ensures f.inode != null && f.inode in list && f in f.inode.files
      ensures forall n :: n in list && n != f.inode ==> f !in n.files
    {}

    method Lock(f: OpfsFile, eNew: int) returns (rc: Rc)
      requires Valid() && f in open
      modifies f.inode`nShared, f.inode`eLock, f.inode`owner, f.inode`levels, f`eLock
      ensures f.inode != null && f.inode == old(f.inode)
      ensures Valid()
      ensures (rc, f.inode.levels) == PagerRules.Request(old(f.inode.levels), f, eNew)
      ensures f.inode.LockAnswer(f, eNew, rc) && f.inode.files == (set g | g in open && g.inode == f.inode)
    {
      hide Linked, Populated, SlotsExist, OpfsPool.Valid, OpfsInode.Valid, PagerRules.Request;
      OnlyItsInode(f);
      Openers(f.inode);
      hide Registered;
      rc := f.inode.Lock(f, eNew);
    }

    method Unlock(f: OpfsFile, eNew: int)
      requires Valid() && f in open
      requires eNew == NONE || eNew == SHARED
      modifies f.inode`nShared, f.inode`eLock, f.inode`owner, f.inode`levels, f`eLock
      ensures f.inode != null && f.inode == old(f.inode)
      ensures Valid() && (eNew == NONE ==> f.eLock == NONE)
      ensures f.eLock == if old(f.eLock) > eNew then eNew else old(f.eLock)
      ensures f.inode.levels == PagerRules.Release(old(f.inode.levels), f, eNew)
    {
      hide Linked, Registered, Populated, SlotsExist, OpfsPool.Valid, OpfsInode.Valid, PagerRules.Release;
      OnlyItsInode(f);
      f.inode.Unlock(f, eNew);
    }

    method ShmLock(f: OpfsFile, ofst: int, n: int, mode: ShmMode) returns (rc: Rc)
      requires Valid() && f in open
      modifies f.inode`aSharedCount, f.inode`aExclOwner, f.inode`table, f`sharedShm, f`exclShm
      ensures f.inode != null && f.inode == old(f.inode)
      ensures Valid()
      ensures (rc, f.inode.table) == WalRules.Request(old(f.inode.table), f, ofst, n, mode)
      ensures f.inode.SlotAnswer(f, ofst, n, mode, rc) && f.inode.files == (set g | g in open && g.inode == f.inode)
    {
      hide Linked, Populated, SlotsExist, OpfsPool.Valid, OpfsInode.Valid, WalRules.Request;
      OnlyItsInode(f);
      Openers(f.inode);
      hide Registered;
      rc := f.inode.ShmLock(f, ofst, n, mode);
    }

    method ShmMap(f: OpfsFile, iRegion: nat, szRegion: nat, bExtend: bool, reallocOk: bool, mallocs: nat)
      returns (rc: Rc, pp: array?<Byte>)
      requires Valid() && f in open
      modifies f.inode`nShmRef, f.inode`szRegion, f.inode`aRegion, f.inode`live, f.inode`mapped, f`hasShm
      ensures f.inode != null && f.inode == old(f.inode)
      ensures f.inode.mapped == old(f.inode.mapped) + {f}
      ensures old(f.inode.aRegion) <= f.inode.aRegion && f.inode.Zeroed(|old(f.inode.aRegion)|)
      ensures forall r :: r in f.inode.aRegion && r !in old(f.inode.aRegion) ==> fresh(r)
      ensures f.inode.MapTold(iRegion, szRegion, bExtend, reallocOk, mallocs, rc, pp)
      ensures pp != null ==> rc == Ok && pp.Length == szRegion
      ensures Valid()
    {
      hide Linked, Registered, Populated, SlotsExist, OpfsPool.Valid, OpfsInode.Valid;
      hide OpfsInode.MapTold, OpfsInode.Zeroed;
      OnlyItsInode(f);
      rc, pp := f.inode.ShmMap(f, iRegion, szRegion, bExtend, reallocOk, mallocs);
    }

    method ShmUnmap(f: OpfsFile)
      requires Valid() && f in open
      modifies f.inode`nShmRef, f.inode`aRegion, f.inode`live, f.inode`mapped
      modifies f.inode`aSharedCount, f.inode`aExclOwner, f.inode`table, f`hasShm, f`sharedShm, f`exclShm
      ensures f.inode != null && f.inode == old(f.inode)
      ensures Valid() && !f.hasShm
      ensures if old(f.hasShm) then f.sharedShm == {} && f.exclShm == {}
              else f.sharedShm == old(f.sharedShm) && f.exclShm == old(f.exclShm)
      ensures f.inode.mapped == old(f.inode.mapped) - {f}
      ensures f.inode.aRegion == if f.inode.mapped == {} then [] else old(f.inode.aRegion)
    {
      hide Linked, Registered, Populated, SlotsExist, OpfsPool.Valid, OpfsInode.Valid;
      OnlyItsInode(f);
      f.inode.ShmUnmap(f);
    }

    method CheckReservedLock(f: OpfsFile) returns (reserved: bool)
      requires Valid() && f in open
      ensures reserved <==> exists g :: g in open && g != f && g.inode == f.inode && g.eLock >= RESERVED
    {
      hide Linked, Populated, SlotsExist, OpfsPool.Valid;
      reserved := f.inode.CheckReservedLock(f);
      f.inode.LevelsOfFiles();
      Openers(f.inode);
    }

    /** A record counts the files that are open on it, and no others. */
    lemma Openers(node: OpfsInode)
      requires Registered() && InodesValid() && node in list
      ensures node.files == (set f | f in open && f.inode == node)
      ensures node.nRef == |set f | f in open && f.inode == node|
      ensures node.nShmRef == |set f | f in open && f.inode == node && f.hasShm|
    {
      hide OpfsInode.PagerValid, OpfsInode.WalValid, OpfsInode.RegionsValid;
      assert node.files == (set f | f in open && f.inode == node);
      assert node.mapped == (set f | f in open && f.inode == node && f.hasShm);
    }

    // -- the data of an open file -------------------------------------------------------

    /** While a file keeps its slot, the slot holds what the file's path is bound to. */
    lemma DataOf(f: OpfsFile)
      requires Valid() && f in open && Keeps(f)
      ensures 0 <= f.slot < |pool.names| && f.inode.path != []
      ensures f.inode.path in pool.Files() && pool.Files()[f.inode.path].data == pool.Contents(f.slot)
    {
      hide InodesValid, Populated;
      pool.ContentsAreBound(f.slot);
    }

    static lemma Sliced(data: Bytes, off: nat, n: nat)
      ensures var r := ReadAt(data, off, n);
              && (|r| == n <==> n == 0 || off + n <= |data|)
              && (|r| < n ==> off + |r| >= |data|)
              && forall k :: 0 <= k < |r| ==> off + k < |data| && r[k] == data[off + k]
    {}

    /** opfsRead: the buffer gets the contents of the file's slot from off on, and zeros past their end. */
    method Read(f: OpfsFile, buf: array<Byte>, off: nat) returns (rc: Rc)
      requires Valid() && f in open
      modifies buf
      ensures 0 <= f.slot < |pool.names|
      ensures var data := pool.Contents(f.slot);
              && (rc == if buf.Length == 0 || off + buf.Length <= |data| then Ok else ShortRead)
              && forall k :: 0 <= k < buf.Length ==> buf[k] == ByteAt(data, off + k)
      ensures SlotData(f) == pool.Contents(f.slot)
      ensures Keeps(f) ==> f.inode.path in pool.Files() && pool.Contents(f.slot) == pool.Files()[f.inode.path].data
    {
      hide Consistent, Keeps, OpfsPool.Valid, OpfsPool.Files, OpfsPool.Contents, ReadAt;
      SlotsInRange();
      if Keeps(f) {
        DataOf(f);
      }
      Sliced(pool.Contents(f.slot), off, buf.Length);
      var data := pool.Read(f.slot, buf.Length, off);
      var got := |data|;
      forall k | 0 <= k < got {
        buf[k] := data[k];
      }
      if got < buf.Length {
        forall k | got <= k < buf.Length {
          buf[k] := 0;
        }
        return ShortRead;
      }
      return Ok;
    }

    /** Every file on this slot has the data where they were put and its other bytes as before; no other changes. */
    twostate predicate AllSeeWrite(f: OpfsFile, data: Bytes, off: nat)
      reads `open, open`slot, f`slot, pool, pool.dir
    {
      forall g :: g in open && g in old(open) ==>
        if g.slot == f.slot then Overwritten(old(SlotData(g)), SlotData(g), off, data)
        else SlotData(g) == old(SlotData(g))
    }

    /** Every file on this slot has the new size, with zeros for what was not there; no other file changes. */
    twostate predicate AllSeeCut(f: OpfsFile, size: nat)
      reads `open, open`slot, f`slot, pool, pool.dir
    {
      forall g :: g in open && g in old(open) ==>
        if g.slot == f.slot then Recut(old(SlotData(g)), SlotData(g), size)
        else SlotData(g) == old(SlotData(g))
    }

    /**
     * opfsWrite, to whatever path the file's slot is bound to: the file's own
     * exactly while it keeps its slot. Through a slot that has been freed it
     * changes no path, and leaves bytes for the next path to get the slot.
     */
    method Write(f: OpfsFile, data: Bytes, off: nat) returns (rc: Rc)
      requires Valid() && f in open
      modifies pool.dir
      ensures Valid() && rc == Ok && 0 <= f.slot < |pool.names|
      ensures pool.Table() == Act(old(pool.Table()), WriteSlot(f.slot, off, data))
      ensures AllSeeWrite(f, data, off)
      ensures pool.Files() == if SlotPath(f) == [] then old(pool.Files())
                              else Plain(old(pool.Files()), |pool.names|, Put(SlotPath(f), off, data))
      ensures Keeps(f) <==> SlotPath(f) == OwnPath(f)
    {
      hide Linked, Populated, InodesValid, OpfsPool.Valid, OpfsPool.Files, OpfsPool.Done, OpfsPool.Table, Act, Plain;
      SlotsInRange();
      PathsInUse();
      hide Overwritten, OpfsPool.Contents;
      var written := pool.Write(f.slot, data, off);
      return Ok;
    }

    method Truncate(f: OpfsFile, size: nat) returns (rc: Rc)
      requires Valid() && f in open
      modifies pool.dir
      ensures Valid() && rc == Ok && 0 <= f.slot < |pool.names|
      ensures pool.Table() == Act(old(pool.Table()), TruncateSlot(f.slot, size))
      ensures AllSeeCut(f, size)
      ensures pool.Files() == if SlotPath(f) == [] then old(pool.Files())
                              else Plain(old(pool.Files()), |pool.names|, Cut(SlotPath(f), size))
      ensures Keeps(f) <==> SlotPath(f) == OwnPath(f)
    {
      hide Linked, Populated, InodesValid, OpfsPool.Valid, OpfsPool.Files, OpfsPool.Done, OpfsPool.Table, Act, Plain;
      SlotsInRange();
      PathsInUse();
      hide Recut, OpfsPool.Contents;
      pool.Truncate(f.slot, size);
      return Ok;
    }

    method FileSize(f: OpfsFile) returns (size: nat)
      requires Valid() && f in open
      ensures 0 <= f.slot < |pool.names| && size == |pool.Contents(f.slot)|
      ensures Keeps(f) ==> f.inode.path in pool.Files() && pool.Contents(f.slot) == pool.Files()[f.inode.path].data
    {
      hide Consistent, Keeps, OpfsPool.Valid, OpfsPool.Files, OpfsPool.Contents;
      SlotsInRange();
      if Keeps(f) {
        DataOf(f);
      }
      size := pool.Size(f.slot);
    }

    method Access(path: Path) returns (found: bool)
      requires Valid()
      ensures found <==> path in pool.Files()
    {
      found := pool.Exists(path);
    }

    // -- the list -------------------------------------------------------------------

    /** inodeFind without create. */
    method InodeFind(path: Path) returns (found: OpfsInode?)
      requires Linked()
      ensures found != null ==> found in list && found.path == path
      ensures found == null ==> forall n :: n in list ==> n.path != path
    {
      found := inodes;
      ghost var i := 0;
      while found != null
        invariant 0 <= i <= |list|
        invariant found == if i < |list| then list[i] else null
        invariant forall j :: 0 <= j < i ==> list[j].path != path
        decreases |list| - i
      {
        if found.path == path {
          return;
        }
        found := found.next;
        i := i + 1;
      }
    }

    /** The allocating half of inodeFind: a new record goes to the front. */
    method InodePush(path: Path) returns (node: OpfsInode)
      requires Linked() && forall n :: n in list ==> n.path != path
      modifies `inodes, `list
      ensures Linked() && fresh(node) && forall n :: n in list <==> n == node || n in old(list)
      ensures node.path == path && node.files == {} && node.Valid()
    {
      hide OpfsInode.Valid, OncePerPath;
      node := new OpfsInode(path);
      ghost var more: seq<OpfsInode> := StillOncePerPath(node);
      node.next := inodes;
      inodes := node;
      list := more;
    }

    lemma StillOncePerPath(node: OpfsInode) returns (more: seq<OpfsInode>)
      requires OncePerPath(list) && forall n :: n in list ==> n != node && n.path != node.path
      ensures OncePerPath(more) && |more| == |list| + 1 && forall n :: n in more <==> n == node || n in list
      ensures forall i :: 0 <= i < |more| ==>
                && more[i] == (if i == 0 then node else list[i - 1])
                && Following(more, i, null) == Following(list, i - 1, null)
    {
      more := Pushed(list, node, null);
    }

    /** Unlinking, as inodeRelease does once the count is zero. */
    method InodeUnlink(node: OpfsInode)
      requires Linked() && node in list
      modifies `inodes, `list, list`next
      ensures Linked() && forall n :: n in list <==> n in old(list) && n != node
    {
      ghost var k := 0;
      if inodes == node {
        assert Following(list, -1, null) == list[0];
        inodes := node.next;
      } else {
        var prev;
        prev, k := Predecessor(node);
        prev.next := node.next;
      }
      hide OncePerPath, Following;
      list := Unlinked(k);
    }

    /** The walk of inodeRelease, for a record that is not the head. */
    method Predecessor(node: OpfsInode) returns (prev: OpfsInode, ghost k: nat)
      requires Linked() && node in list && inodes != node
      ensures 0 < k < |list| && prev == list[k - 1] && node == list[k]
    {
      hide OncePerPath;
      assert Following(list, -1, null) == list[0];
      prev := inodes;
      k := 1;
      while prev.next != node
        invariant 0 < k <= |list| && prev == list[k - 1] && node in list[k..]
        decreases |list| - k
      {
        assert list[k..] == [list[k]] + list[k + 1..];
        prev := prev.next;
        k := k + 1;
      }
    }

    /** A list with record k bypassed is linked once the ghost list leaves it out. */
    lemma Unlinked(k: nat) returns (rest: seq<OpfsInode>)
      requires k < |list| && OncePerPath(list)
      requires inodes == if k == 0 then Following(list, 0, null) else list[0]
      requires forall i :: 0 <= i < |list| && i != k ==>
                 list[i].next == if i + 1 == k then Following(list, k, null) else Following(list, i, null)
      ensures OncePerPath(rest) && inodes == Following(rest, -1, null)
      ensures forall n :: n in rest <==> n in list && n != list[k]
      ensures forall i :: 0 <= i < |rest| ==> rest[i].next == Following(rest, i, null)
    {
      rest := LeftOut(list, k);
      assert Distinct(list);
      LeftOutHolds(list, k);
    }

    // -- xOpen ------------------------------------------------------------------------

    /** What opfsOpen opens: a file without a name gets one, and goes when it is closed. */
    static function Wanted(zName: Option<Path>, tmp: Path, flags: Word): (Path, Word) {
      if zName.Some? then (zName.value, flags) else (tmp, WithBit(WithBit(flags, 3), 2))
    }

    /** A file without a name is created if need be and deleted when closed; its other flags stay. */
    static lemma TemporaryFiles(tmp: Path, flags: Word)
      ensures var (path, fl) := Wanted(None, tmp, flags);
              && path == tmp && BitSet(fl, 2) && BitSet(fl, 3)
              && forall j: nat :: j != 2 && j != 3 ==> (BitSet(fl, j) <==> BitSet(flags, j))
    {
      forall j: nat
        ensures BitSet(Wanted(None, tmp, flags).1, j) <==> j == 2 || j == 3 || BitSet(flags, j)
      {
        WithBitSets(flags, 3, j);
        WithBitSets(WithBit(flags, 3), 2, j);
      }
    }

    /** The bits opfsOpen tests: create is 4 and delete-on-close 8. */
    static lemma OpenBits(flags: Word)
      ensures (BitSet(flags, 2) <==> flags / 4 % 2 == 1) && (BitSet(flags, 3) <==> flags / 8 % 2 == 1)
    {
      ShrDivides(flags, 2);
      ShrDivides(flags, 3);
      assert Pow2(2) == 4 && Pow2(3) == 8;
    }

    /** A given name is opened as it is; without one the temporary name is, to be created and to go when closed. */
    static lemma WantedTells(zName: Option<Path>, tmp: Path, flags: Word)
      ensures var (path, fl) := Wanted(zName, tmp, flags);
              match zName
              case Some(name) => path == name && fl == flags
              case None => path == tmp && fl / 4 % 2 == 1 && fl / 8 % 2 == 1
    {
      TemporaryFiles(tmp, flags);
      OpenBits(Wanted(zName, tmp, flags).1);
    }

    /** When which answer is given, and what the map is then. */
    static lemma OpenTells(fs: Fs, slots: nat, path: Path, flags: Word, left: Bytes, listed: bool, mallocOk: bool)
      ensures var rc := OpenRc(fs, slots, path, flags, listed, mallocOk);
              var creates := path !in fs && flags / 4 % 2 == 1 && |fs| != slots;
              && (rc == CantOpen <==> path !in fs && flags / 4 % 2 == 0)
              && (rc == Full <==> path !in fs && flags / 4 % 2 == 1 && |fs| == slots)
              && (rc == NoMem <==> (path in fs || creates) && !listed && !mallocOk)
              && (rc == Ok <==> (path in fs || creates) && (listed || mallocOk))
      ensures var after := FilesAfterOpen(fs, slots, path, flags, left);
              var creates := path !in fs && flags / 4 % 2 == 1 && |fs| != slots;
              && (path in after <==> path in fs || creates)
              && (creates ==> after[path] == Entry(flags, left))
              && forall x :: x != path || !creates ==> (x in after <==> x in fs) && (x in fs ==> after[x] == fs[x])
    {
      OpenBits(flags);
    }

    /** The paths SQLite passes down. */
    static predicate Acceptable(path: Path) { path != [] && NulFree(path) && |path| <= OPFS_MAX_PATH }

    /** The map after an open, from what was asked, how many slots there are and what the next free one has left. */
    static ghost function FilesAfterOpen(fs: Fs, slots: nat, path: Path, flags: Word, left: Bytes): Fs {
      if path in fs || !BitSet(flags, 2) || |fs| == slots then fs else fs[path := Entry(flags, left)]
    }

    /** The answer. A record that cannot be allocated is reported after the path has been created. */
    static ghost function OpenRc(fs: Fs, slots: nat, path: Path, flags: Word, listed: bool, mallocOk: bool): Rc {
      if path !in fs && !BitSet(flags, 2) then CantOpen
      else if path !in fs && |fs| == slots then Full
      else if !listed && !mallocOk then NoMem
      else Ok
    }

    ghost predicate Listed(path: Path)
      reads `list, list
    {
      exists n :: n in list && n.path == path
    }

    /** opfs_js_open, and what it does to the table. */
    method PoolOpenSlot(path: Path, flags: Word) returns (slot: int)
      requires Valid() && Acceptable(path)
      modifies pool, pool.dir
      ensures Valid() && pool.names == old(pool.names)
      ensures pool.Files() == FilesAfterOpen(old(pool.Files()), |pool.names|, path, flags, old(Leftover(pool.Table())))
      ensures slot == if path in pool.Files() then Find(pool.View(), path)
                      else if BitSet(flags, 2) then -2 else -1
      ensures slot >= 0 <==> path in pool.Files()
      ensures slot >= 0 ==> slot < |pool.names| && slot < |pool.paths| && pool.paths[slot] == path
      ensures OnlyNewPath(old(pool.Table()), pool.Table(), path)
    {
      hide Linked, Registered, Populated, InodesValid;
      hide Good, FsOf, After, Steps, Distinct, OpfsPool.OpenAnswer, FilesAfterOpen, OnlyNewPath, Leftover;
      ghost var before := pool.View();
      PoolSized();
      var threw;
      slot, threw := pool.Open(path, BitSet(flags, 2), flags);
      PoolSized();
      OpenSaid(before, pool.View(), path, flags, slot, threw);
    }

    /** opfs_js_open: a path that is created takes a free slot, and no other slot changes. */
    method PoolOpen(path: Path, flags: Word) returns (slot: int)
      requires Valid() && Acceptable(path)
      modifies pool, pool.dir
      ensures Valid() && pool.names == old(pool.names)
      ensures pool.Files() == FilesAfterOpen(old(pool.Files()), |pool.names|, path, flags, old(Leftover(pool.Table())))
      ensures slot == if path in pool.Files() then Find(pool.View(), path)
                      else if BitSet(flags, 2) then -2 else -1
      ensures slot >= 0 <==> path in pool.Files()
      ensures slot >= 0 ==> slot < |pool.names| && slot < |pool.paths| && pool.paths[slot] == path
      ensures OnlyNewPath(old(pool.Table()), pool.Table(), path) && NoneLoses(path)
    {
      hide Consistent, OpfsPool.Valid, FilesAfterOpen, OnlyNewPath, Leftover, Find, Slots, HeadersAgree, Sized, FsOf;
      ghost var before := pool.View();
      StillValid();
      PathsInUse();
      slot := PoolOpenSlot(path, flags);
      StillValid();
      NewPathOnly(before, pool.View(), path);
    }

    /** Files keep their slots, and one on `path` that had lost its slot may have it again; no data changes. */
    twostate predicate NoneLoses(path: Path)
      reads `open, open`inode, open`slot, pool, pool.dir
    {
      forall g :: g in open && g in old(open) ==>
        && (old(Keeps(g)) ==> Keeps(g))
        && (Keeps(g) && OwnPath(g) != path ==> old(Keeps(g)))
        && SlotData(g) == old(SlotData(g))
    }

    /** Slots keep what they have, but one that was free may have got the path. */
    static ghost predicate OnlyNewPath(t: Table, u: Table, path: Path) {
      && |u| == |t|
      && forall i :: 0 <= i < |t| ==>
           u[i] == t[i] || (t[i].path == [] && u[i].path == path && u[i].entry.data == t[i].entry.data)
    }

    static lemma NewPathOnly(p: Pool, q: Pool, path: Path)
      requires Sized(p) && Sized(q) && OnlyNewPath(Slots(p), Slots(q), path)
      ensures |q.paths| == |p.paths| == |p.names| == |q.names|
      ensures forall i :: 0 <= i < |p.paths| ==> q.paths[i] == p.paths[i] || (p.paths[i] == [] && q.paths[i] == path)
      ensures forall i :: 0 <= i < |p.paths| ==> Data(FileOf(q, i)) == Data(FileOf(p, i))
    {
      forall i | 0 <= i < |p.paths|
        ensures q.paths[i] == p.paths[i] || (p.paths[i] == [] && q.paths[i] == path)
        ensures Data(FileOf(q, i)) == Data(FileOf(p, i))
      {
        TableAt(p, i);
        TableAt(q, i);
      }
    }

    lemma PoolSized()
      requires pool.Valid()
      ensures Good(pool.View()) && Sized(pool.View())
    {
      hide HeadersAgree, DistinctPaths;
    }

    static lemma OpenSaid(p: Pool, q: Pool, path: Path, flags: Word, slot: int, threw: bool)
      requires OpfsPool.OpenAnswer(p, q, path, BitSet(flags, 2), flags, slot, threw) && Acceptable(path)
      requires q.names == p.names
      ensures Good(p) && Good(q) && !threw
      ensures FsOf(q) == FilesAfterOpen(FsOf(p), |p.names|, path, flags, Leftover(Slots(p)))
      ensures slot == if path in FsOf(q) then Find(q, path) else if BitSet(flags, 2) then -2 else -1
      ensures slot >= 0 <==> path in FsOf(q)
      ensures OnlyNewPath(Slots(p), Slots(q), path)
    {
      hide FsOf, NulFree, HeadersAgree, DistinctPaths;
      FindTells(p, path);
      FindTells(q, path);
      TableFinds(p, path);
    }

    /** inodeFind with create: the allocation may fail. */
    method InodeFor(path: Path, mallocOk: bool) returns (node: OpfsInode?)
      requires Linked() && Registered() && Populated() && InodesValid() && path != []
      modifies `inodes, `list
      ensures Linked() && Registered() && InodesValid() && AllPopulatedBut(node)
      ensures node != null ==> node in list && node.path == path
      ensures node == null <==> !old(Listed(path)) && !mallocOk
      ensures if old(Listed(path)) || !mallocOk then list == old(list)
              else fresh(node) && forall n :: n in list <==> n == node || n in old(list)
    {
      hide OncePerPath, OpfsInode.Valid;
      node := InodeFind(path);
      if node == null && mallocOk {
        node := InodePush(path);
      }
    }

    ghost predicate AllPopulatedBut(node: OpfsInode?)
      reads `list, list`files
    {
      forall n :: n in list ==> n == node || n.files != {}
    }

    /** The end of opfsOpen: the file joins its inode. */
    method Enlist(f: OpfsFile, node: OpfsInode, slot: nat, deleteOnClose: bool)
      requires Registered() && InodesValid() && SlotsExist() && AllPopulatedBut(node)
      requires node in list && f !in open && f.Blank()
      requires slot < |pool.names|
      modifies `open, f`inode, f`slot, f`deleteOnClose, node`nRef, node`files, node`levels, node`table
      ensures Registered() && Populated() && InodesValid() && SlotsExist() && f.Blank()
      ensures open == old(open) + {f}
      ensures f.inode == node && f.slot == slot && f.deleteOnClose == deleteOnClose
    {
      hide OpfsInode.Valid, OpfsFile.Blank, InodesValid, SlotsExist;
      f.Bind(node, slot, deleteOnClose);
      AttachTo(f, node);
    }

    method AttachTo(f: OpfsFile, node: OpfsInode)
      requires InodesValid() && SlotsExist()
      requires node in list && f !in open && f.Blank() && f.inode == node
      requires 0 <= f.slot < |pool.names|
      modifies `open, node`nRef, node`files, node`levels, node`table
      ensures InodesValid() && SlotsExist()
      ensures open == old(open) + {f} && node.files == old(node.files) + {f}
    {
      hide OpfsInode.Valid;
      node.Attach(f);
      open := open + {f};
      forall n | n in list
        ensures n.files <= open && n.Valid()
      {
        if n != node {
          assert n.files == old(n.files);
        }
      }
    }

    /** Other files stay where they are. */
    twostate predicate NoneMoves()
      reads `open, open`inode, open`slot, pool, pool.dir
    {
      forall g :: g in open && g in old(open) ==>
        OwnPath(g) == old(OwnPath(g)) && Keeps(g) == old(Keeps(g)) && SlotData(g) == old(SlotData(g))
    }

    /** opfsOpen once the pool has given it a slot. */
    method OpenOn(path: Path, f: OpfsFile, slot: nat, deleteOnClose: bool, mallocOk: bool) returns (ok: bool)
      requires Consistent() && Acceptable(path)
      requires f !in open && f.Blank() && f.inode == null
      requires slot < |pool.names| && slot < |pool.paths| && pool.paths[slot] == path
      modifies `inodes, `list, `open, f`inode, f`slot, f`deleteOnClose
      modifies list`nRef, list`files, list`levels, list`table
      ensures Consistent() && NoneMoves()
      ensures f.Blank() && ok == (old(Listed(path)) || mallocOk)
      ensures if ok
              then && open == old(open) + {f} && OwnPath(f) == SlotPath(f) == path && f.slot == slot
                   && f.deleteOnClose == deleteOnClose
              else open == old(open) && list == old(list) && f.inode == null
    {
      hide Linked, Registered, Populated, AllPopulatedBut, InodesValid, SlotsExist;
      hide OpfsFile.Blank, Listed;
      var node := InodeFor(path, mallocOk);
      if node == null {
        NoneMissing();
        return false;
      }
      Enlist(f, node, slot, deleteOnClose);
      return true;
    }

    lemma NoneMissing()
      requires AllPopulatedBut(null)
      ensures Populated()
    {}

    static lemma OpenRcSaid(fs: Fs, slots: nat, path: Path, flags: Word, left: Bytes)
      ensures forall l, m :: OpenRc(fs, slots, path, flags, l, m) ==
                if path in FilesAfterOpen(fs, slots, path, flags, left) then if l || m then Ok else NoMem
                else if BitSet(flags, 2) then Full else CantOpen
    {}

    /** opfsOpen for a file that has been zeroed, once the name is settled. */
    method OpenNamed(path: Path, f: OpfsFile, flags: Word, mallocOk: bool) returns (rc: Rc)
      requires Valid() && f !in open && Acceptable(path) && f.Blank() && f.inode == null
      modifies `inodes, `list, `open, f`inode, f`slot, f`deleteOnClose, pool, pool.dir
      modifies list`nRef, list`files, list`levels, list`table
      ensures Valid() && f.Blank() && pool.names == old(pool.names)
      ensures rc == OpenRc(old(pool.Files()), |pool.names|, path, flags, old(Listed(path)), mallocOk)
      ensures pool.Files() == FilesAfterOpen(old(pool.Files()), |pool.names|, path, flags, old(Leftover(pool.Table())))
      ensures OnlyNewPath(old(pool.Table()), pool.Table(), path) && NoneLoses(path)
      ensures rc == Ok ==> open == old(open) + {f} && OwnPath(f) == SlotPath(f) == path
      ensures rc == Ok ==> f.slot == Find(pool.View(), path) && f.deleteOnClose == BitSet(flags, 3)
      ensures rc != Ok ==> open == old(open) && list == old(list) && f.inode == null
    {
      hide Consistent, OpfsPool.Valid, OpfsFile.Blank, Listed, Acceptable, Good, Find, OpenRc, FilesAfterOpen;
      hide OnlyNewPath, Leftover, HeadersAgree, Slots, Sized, Keeps, SlotPath, SlotData, OwnPath;
      hide OpfsPool.Files, OpfsPool.Table, OpfsPool.View;
      StillValid();
      OpenRcSaid(pool.Files(), |pool.names|, path, flags, Leftover(pool.Table()));
      var slot := PoolOpen(path, flags);
      if slot < 0 {
        return if slot == -2 then Full else CantOpen;
      }
      var ok := OpenOn(path, f, slot, BitSet(flags, 3), mallocOk);
      return if ok then Ok else NoMem;
    }

    /**
     * opfsOpen. A path that is created is bound to what its slot has left. Files
     * open already keep their slots, and one that had lost its slot has it again
     * if the path gets the slot back.
     */
    method Open(zName: Option<Path>, tmp: Path, f: OpfsFile, flags: Word, mallocOk: bool)
      returns (rc: Rc, outFlags: Word)
      requires Valid() && f !in open && Acceptable(Wanted(zName, tmp, flags).0)
      modifies `inodes, `list, `open, f, pool, pool.dir
      modifies list`nRef, list`files, list`levels, list`table
      ensures Valid() && f.Blank()
      ensures var (path, fl) := Wanted(zName, tmp, flags);
              && rc == OpenRc(old(pool.Files()), |pool.names|, path, fl, old(Listed(path)), mallocOk)
              && pool.Files() == FilesAfterOpen(old(pool.Files()), |pool.names|, path, fl, old(Leftover(pool.Table())))
              && OnlyNewPath(old(pool.Table()), pool.Table(), path) && NoneLoses(path)
              && pool.names == old(pool.names) && outFlags == fl
              && (rc == Ok ==> open == old(open) + {f} && OwnPath(f) == SlotPath(f) == path)
              && (rc == Ok ==> f.slot == Find(pool.View(), path) && f.deleteOnClose == BitSet(fl, 3))
              && (rc != Ok ==> open == old(open) && list == old(list) && f.inode == null)
      ensures match zName
              case Some(name) => outFlags == flags && (rc == Ok ==> OwnPath(f) == name)
              case None =>
                && outFlags / 4 % 2 == 1 && outFlags / 8 % 2 == 1
                && (rc == Ok ==> OwnPath(f) == tmp && f.deleteOnClose)
    {
      WantedTells(zName, tmp, flags);
      OpenBits(Wanted(zName, tmp, flags).1);
      hide Valid, OpfsPool.Valid, OpfsFile.Blank, Listed, NulFree, Good, Find, OpenRc, FilesAfterOpen, Wanted;
      hide Acceptable, OnlyNewPath, Leftover, HeadersAgree, Keeps, SlotPath, SlotData, OwnPath, BitSet;
      StillValid();
      f.Clear();
      var path := Wanted(zName, tmp, flags).0;
      outFlags := Wanted(zName, tmp, flags).1;
      rc := OpenNamed(path, f, outFlags, mallocOk);
    }

    /** A file's path is never empty. */
    lemma PathsInUse()
      requires Valid()
      ensures forall g :: g in open ==> g.inode != null && g.inode.path != []
    {}

    lemma StillValid()
      requires Valid()
      ensures pool.Valid() && Sized(pool.View())
    {
      PoolSized();
    }

    // -- xClose -----------------------------------------------------------------------

    /** The file leaves its inode. */
    method DetachFrom(f: OpfsFile, node: OpfsInode)
      requires InodesValid() && SlotsExist()
      requires node in list && f in open && f in node.files && f.Blank()
      requires forall n :: n in list && n != node ==> f !in n.files
      modifies `open, node`nRef, node`files, node`levels, node`table
      ensures InodesValid() && SlotsExist()
      ensures open == old(open) - {f} && node.files == old(node.files) - {f} && (node.nRef > 0 <==> node.files != {})
    {
      hide OpfsInode.Valid;
      node.Detach(f);
      open := open - {f};
      forall n | n in list
        ensures n.files <= open && n.Valid()
      {
        if n != node {
          assert n.files == old(n.files);
        }
      }
    }

    /** The counting down of inodeRelease. */
    method Depart(f: OpfsFile, node: OpfsInode)
      requires Registered() && Populated() && InodesValid() && SlotsExist()
      requires f in open && f.inode == node && f.Blank()
      modifies `open, node`nRef, node`files, node`levels, node`table
      ensures Registered() && AllPopulatedBut(node) && InodesValid() && SlotsExist()
      ensures open == old(open) - {f} && node.files == old(node.files) - {f} && (node.nRef > 0 <==> node.files != {})
    {
      hide InodesValid, SlotsExist, OpfsFile.Blank;
      OnlyItsInode(f);
      DetachFrom(f, node);
    }

    /** A record no file uses is unlinked and freed. */
    method Drop(node: OpfsInode)
      requires Linked() && Registered() && AllPopulatedBut(node) && InodesValid()
      requires node in list && node.files == {}
      modifies `inodes, `list, list`next, node`aRegion, node`live
      ensures Linked() && Registered() && Populated() && InodesValid()
      ensures forall n :: n in list <==> n in old(list) && n != node
    {
      hide Linked, Registered, Populated, AllPopulatedBut;
      Unlist(node);
      node.Dispose();
    }

    method Unlist(node: OpfsInode)
      requires Linked() && Registered() && AllPopulatedBut(node) && InodesValid()
      requires node in list && node.files == {}
      modifies `inodes, `list, list`next
      ensures Linked() && Registered() && Populated() && InodesValid() && node.Valid()
      ensures forall n :: n in list <==> n in old(list) && n != node
    {
      hide Linked, OpfsInode.Valid;
      InodeUnlink(node);
    }

    /** inodeRelease: the last file takes the record with it. */
    method InodeRelease(f: OpfsFile, node: OpfsInode)
      requires Consistent() && f in open && f.inode == node && f.Blank()
      modifies `inodes, `list, `open, list`next, node`nRef, node`files, node`levels, node`table, node`aRegion, node`live
      ensures Consistent()
      ensures open == old(open) - {f} && node.files == old(node.files) - {f}
      ensures forall n :: n in list <==> n in old(list) && (n == node ==> node.files != {})
      ensures node.files != {} ==> node.aRegion == old(node.aRegion)
    {
      hide Linked, Registered, Populated, InodesValid, SlotsExist, AllPopulatedBut, OpfsFile.Blank;
      OnlyItsInode(f);
      Depart(f, node);
      if node.nRef > 0 {
        AllPopulated(node);
        return;
      }
      Drop(node);
    }

    lemma AllPopulated(node: OpfsInode)
      requires AllPopulatedBut(node) && node.files != {}
      ensures Populated()
    {}

    // -- xDelete and rename -------------------------------------------------------------

    /** Paths and data slot by slot, as the table has them. */
    static lemma TableAt(p: Pool, i: nat)
      requires Sized(p) && i < |p.names|
      ensures i < |p.paths| && Slots(p)[i].path == p.paths[i] && Slots(p)[i].entry.data == Data(FileOf(p, i))
    {}

    /** What a removal or a rename does to the slots of the table. */
    static lemma ActsOnSlots(t: Table, op: Op, i: nat)
      requires TableOk(t) && i < |t|
      requires op.Remove? || (op.Rename? && SlotOf(t, op.from) >= 0 && Fits(op.to))
      ensures Act(t, op)[i].path == PathAfter(op, t[i].path)
      ensures Act(t, op)[i].entry.data == if Emptied(op, t[i].path) then [] else t[i].entry.data
    {
      hide TableOk, MapOf, Removed, SlotOf;
      if op.Remove? {
        RemovedDrops(t, op.path);
      } else {
        RenamedSlots(t, op.from, op.to);
        FreeStaysFree(t, op.from);
      }
    }

    static lemma FreeStaysFree(t: Table, from: Path)
      requires SlotOf(t, from) >= 0
      ensures from != []
    {}

    /** ... and to the pool's. */
    static lemma SlotsAfter(p: Pool, q: Pool, op: Op, i: nat)
      requires Good(p) && Sized(q) && q.names == p.names && Slots(q) == Act(Slots(p), op) && i < |p.names|
      requires op.Remove? || (op.Rename? && Find(p, op.from) >= 0 && Fits(op.to))
      ensures i < |p.paths| && i < |q.paths|
      ensures q.paths[i] == PathAfter(op, p.paths[i])
      ensures Data(FileOf(q, i)) == if Emptied(op, p.paths[i]) then [] else Data(FileOf(p, i))
    {
      hide HeadersAgree, DistinctPaths, MapOf, Data, Act, SlotOf, PathAfter, Emptied, TableOk, Holder;
      TableIsOk(p);
      TableAt(p, i);
      TableAt(q, i);
      if op.Rename? {
        TableFinds(p, op.from);
      }
      ActsOnSlots(Slots(p), op, i);
    }

    /** The path of a slot after an operation that names paths, from the path it had. */
    static function PathAfter(op: Op, path: Path): Path {
      match op
      case Remove(gone) => if path == gone then [] else path
      case Rename(from, to) => if path == from then to else if path == to then [] else path
      case _ => path
    }

    /** Whether the slot of a path is emptied by it. */
    static predicate Emptied(op: Op, path: Path) {
      path != [] &&
      match op
      case Remove(gone) => path == gone
      case Rename(from, to) => path == to || (path == from && to == [])
      case _ => false
    }

    /**
     * If the path has gone, its files have lost their slot, which is free and
     * empty; and every other file's slot is as it was.
     */
    twostate predicate OnlyItLosesSlots(gone: bool, path: Path)
      reads `open, open`inode, open`slot, pool, pool.dir
    {
      forall f :: f in open && f in old(open) ==>
        FollowsLoss(f, gone && OwnPath(f) == path, gone && old(SlotPath(f)) == path != [])
    }

    twostate predicate FollowsLoss(f: OpfsFile, loses: bool, taken: bool)
      reads f`inode, f`slot, pool, pool.dir
    {
      && (Keeps(f) <==> old(Keeps(f)) && !loses)
      && (taken ==> SlotPath(f) == [] && SlotData(f) == [])
      && (!taken ==> SlotPath(f) == old(SlotPath(f)) && SlotData(f) == old(SlotData(f)))
    }

    /** Every file's slot is as the operation, which names paths, leaves it. */
    twostate predicate SlotsFollow(op: Op)
      reads `open, open`inode, open`slot, pool, pool.dir
    {
      forall f :: f in open && f in old(open) ==>
        && SlotPath(f) == PathAfter(op, old(SlotPath(f)))
        && SlotData(f) == (if Emptied(op, old(SlotPath(f))) then [] else old(SlotData(f)))
    }

    /**
     * opfsDelete. The slot is freed and emptied even while files are open on it:
     * those files lose it, and only those; no other file's slot changes.
     */
    method Delete(path: Path)
      requires Valid()
      modifies pool, pool.dir
      ensures Valid() && pool.Files() == old(pool.Files()) - {path} && pool.names == old(pool.names)
      ensures pool.Table() == Act(old(pool.Table()), Op.Remove(path))
      ensures OnlyItLosesSlots(true, path)
    {
      hide Linked, Registered, Populated, InodesValid, OpfsPool.Valid, Good, FsOf, After, Steps, Act;
      ghost var before := pool.View();
      PathsInUse();
      StillValid();
      SlotsInRange();
      var found := pool.Remove(path);
      PoolSized();
      forall f | f in open
        ensures SlotPath(f) == PathAfter(Op.Remove(path), old(SlotPath(f)))
        ensures SlotData(f) == if Emptied(Op.Remove(path), old(SlotPath(f))) then [] else old(SlotData(f))
      {
        SlotsAfter(before, pool.View(), Op.Remove(path), f.slot);
      }
    }

    /** Of the files that kept their slot, those on either name have lost it, unless the two are the same. */
    twostate predicate FilesOnLose(from: Path, to: Path)
      reads `open, open`inode, open`slot, pool`paths
    {
      forall f :: f in open && f in old(open) && old(Keeps(f)) ==>
        (Keeps(f) <==> from == to || OwnPath(f) !in {from, to})
    }

    /** The rename of ::opfsvfs::file. Files open on either name lose their slot, unless the two are the same. */
    method Rename(from: Path, to: Path) returns (found: bool, threw: bool)
      requires Valid() && NulFree(to)
      modifies pool, pool.dir
      ensures Valid() && pool.Files() == Plain(old(pool.Files()), |pool.names|, Move(from, to))
      ensures pool.names == old(pool.names) && pool.Table() == Act(old(pool.Table()), Op.Rename(from, to))
      ensures (found <==> from in old(pool.Files())) && (threw <==> found && !Fits(to))
      ensures if found && !threw then SlotsFollow(Op.Rename(from, to)) && FilesOnLose(from, to)
              else pool.View() == old(pool.View())
    {
      hide Consistent, OpfsPool.Valid, OpfsPool.Files, OpfsPool.Table, Act, Plain, NulFree, SlotData, SlotPath;
      PathsInUse();
      found, threw := RenameSlots(from, to);
    }

    method RenameSlots(from: Path, to: Path) returns (found: bool, threw: bool)
      requires Valid() && NulFree(to)
      modifies pool, pool.dir
      ensures Valid() && pool.Files() == Plain(old(pool.Files()), |pool.names|, Move(from, to))
      ensures pool.names == old(pool.names) && pool.Table() == Act(old(pool.Table()), Op.Rename(from, to))
      ensures (found <==> from in old(pool.Files())) && (threw <==> found && !Fits(to))
      ensures if found && !threw then SlotsFollow(Op.Rename(from, to)) else pool.View() == old(pool.View())
    {
      hide Linked, Registered, Populated, InodesValid, OpfsPool.Valid, Good, FsOf, After, Steps, Act, Plain, NulFree;
      ghost var before := pool.View();
      StillValid();
      SlotsInRange();
      FoundIs(from);
      found, threw := pool.Rename(from, to);
      PoolSized();
      if found && !threw {
        forall f | f in open
          ensures SlotPath(f) == PathAfter(Op.Rename(from, to), old(SlotPath(f)))
          ensures SlotData(f) == if Emptied(Op.Rename(from, to), old(SlotPath(f))) then [] else old(SlotData(f))
        {
          SlotsAfter(before, pool.View(), Op.Rename(from, to), f.slot);
        }
      }
    }

    lemma FoundIs(path: Path)
      requires Valid()
      ensures path in pool.Files() <==> Find(pool.View(), path) >= 0
    {
      FindTells(pool.View(), path);
    }

    lemma SlotsInRange()
      requires Valid()
      ensures forall f :: f in open ==> 0 <= f.slot < |pool.names| && f.slot < |pool.paths|
    {
      PoolSized();
    }

    /** What opfsClose does before it looks at the pool. */
    method LetGo(f: OpfsFile)
      requires Valid() && f in open && Closable(f)
      modifies f.inode`nShared, f.inode`eLock, f.inode`owner, f.inode`levels, f`eLock
      modifies f.inode`nShmRef, f.inode`aRegion, f.inode`live, f.inode`mapped
      modifies f.inode`aSharedCount, f.inode`aExclOwner, f.inode`table, f`hasShm, f`sharedShm, f`exclShm
      ensures f.inode != null && f.inode == old(f.inode)
      ensures Valid() && f.Blank() && RegionsKept(f)
    {
      hide Linked, Registered, Populated, InodesValid, SlotsExist, OpfsPool.Valid, PagerRules.Release;
      OnlyItsInode(f);
      RegionsEnd(f);
      Unlock(f, NONE);
      if f.hasShm {
        ShmUnmap(f);
      }
    }

    /** opfs_js_close. */
    method PoolClose(f: OpfsFile)
      requires Valid() && f in open
      modifies pool.dir
      ensures Valid() && pool.View() == old(pool.View()) && OnlyItLosesSlots(false, [])
      ensures pool.Files() == old(pool.Files()) && pool.Table() == old(pool.Table())
    {
      hide Linked, Registered, Populated, InodesValid, OpfsPool.Valid;
      pool.Flush(f.slot);
    }

    lemma OthersOpen(f: OpfsFile)
      requires Registered() && Populated() && f in open
      ensures forall n :: n in list ==> (n.files - {f} != {} <==> n != f.inode || f.inode.files - {f} != {})
    {
      forall n | n in list && n != f.inode
        ensures n.files - {f} == n.files
      {}
    }

    /** Once closed, a file is named by no record. */
    lemma Forgotten(f: OpfsFile)
      requires Registered() && InodesValid() && f !in open
      ensures NamedByNone(f)
    {
      hide OpfsInode.Valid;
      forall n | n in list
        ensures n.owner != Some(f) && f !in n.files + n.mapped
        ensures forall i :: 0 <= i < |n.aExclOwner| ==> n.aExclOwner[i] != Some(f)
      {
        n.NamesOnlyItsFiles(f);
      }
    }

    ghost predicate NamedByNone(f: OpfsFile)
      reads `list, list
    {
      && (forall n :: n in list ==> n.owner != Some(f) && f !in n.files + n.mapped)
      && (forall n, i :: n in list && 0 <= i < |n.aExclOwner| ==> n.aExclOwner[i] != Some(f))
    }

    /** With delete-on-close the path goes; the other files on it lose their slot. */
    method DeleteIf(deleteOnClose: bool, path: Path)
      requires Valid()
      modifies pool, pool.dir
      ensures Valid() && pool.Files() == if deleteOnClose then old(pool.Files()) - {path} else old(pool.Files())
      ensures pool.names == old(pool.names) && OnlyItLosesSlots(deleteOnClose, path)
      ensures pool.Table() == if deleteOnClose then Act(old(pool.Table()), Op.Remove(path)) else old(pool.Table())
    {
      hide Consistent, OpfsPool.Valid, Keeps, SlotPath, SlotData, OwnPath, Act;
      if deleteOnClose {
        Delete(path);
      }
    }

    /** The calls opfsClose makes on the pool. */
    method ClosePath(f: OpfsFile, path: Path)
      requires Valid() && f in open
      modifies pool, pool.dir
      ensures Valid() && pool.names == old(pool.names)
      ensures pool.Files() == if f.deleteOnClose then old(pool.Files()) - {path} else old(pool.Files())
      ensures OnlyItLosesSlots(f.deleteOnClose, path)
      ensures pool.Table() == if f.deleteOnClose then Act(old(pool.Table()), Op.Remove(path)) else old(pool.Table())
    {
      hide Consistent, OpfsPool.Valid, OpfsPool.Files, OpfsPool.Table, Act;
      PoolClose(f);
      DeleteIf(f.deleteOnClose, path);
    }

    /** Regions go when the last file to have mapped them is closed, and are not touched before. */
    twostate predicate RegionsKept(f: OpfsFile)
      reads `list, list`mapped, list`aRegion
    {
      forall n :: n in list && n in old(list) ==>
        && n.mapped == old(n.mapped) - {f}
        && n.aRegion == if n.mapped == {} then [] else old(n.aRegion)
    }

    /** opfsClose of a file that is open, but for the inode's count. */
    method CloseFirst(f: OpfsFile, node: OpfsInode)
      requires Valid() && f in open && f.inode == node && Closable(f)
      modifies node`nShared, node`eLock, node`owner, node`levels, f`eLock
      modifies node`nShmRef, node`aRegion, node`live, node`mapped
      modifies node`aSharedCount, node`aExclOwner, node`table, f`hasShm, f`sharedShm, f`exclShm, pool, pool.dir
      ensures Valid() && f.Blank() && pool.names == old(pool.names)
      ensures pool.Files() == if f.deleteOnClose then old(pool.Files()) - {node.path} else old(pool.Files())
      ensures OnlyItLosesSlots(f.deleteOnClose, node.path) && RegionsKept(f)
      ensures pool.Table() ==
              if f.deleteOnClose then Act(old(pool.Table()), Op.Remove(node.path)) else old(pool.Table())
    {
      hide Consistent, OpfsPool.Valid, OpfsFile.Blank, Keeps, SlotPath, SlotData, OpfsPool.Files, OpfsPool.Table, Act;
      LetGo(f);
      ClosePath(f, node.path);
    }

    /** opfsClose of a file that is open. */
    method CloseOpen(f: OpfsFile, node: OpfsInode)
      requires Valid() && f in open && f.inode == node && Closable(f)
      modifies `inodes, `list, `open, f, list, pool, pool.dir
      ensures Valid() && f.inode == null && open == old(open) - {f} && pool.names == old(pool.names)
      ensures pool.Files() == if old(f.deleteOnClose) then old(pool.Files()) - {node.path} else old(pool.Files())
      ensures forall n :: n in list <==> n in old(list) && old(n.files) - {f} != {}
      ensures OnlyItLosesSlots(old(f.deleteOnClose), node.path) && RegionsKept(f)
      ensures pool.Table() ==
              if old(f.deleteOnClose) then Act(old(pool.Table()), Op.Remove(node.path)) else old(pool.Table())
    {
      hide Linked, Registered, Populated, InodesValid, SlotsExist, OpfsPool.Valid, OpfsFile.Blank, Keeps;
      hide SlotPath, SlotData, OpfsPool.Files, OpfsPool.Table, Act;
      OnlyItsInode(f);
      OthersOpen(f);
      CloseFirst(f, node);
      Leave(f, node);
    }

    method Leave(f: OpfsFile, node: OpfsInode)
      requires Consistent() && f in open && f.inode == node && f.Blank()
      modifies `inodes, `list, `open, list`next, node`nRef, node`files, node`levels, node`table, node`aRegion, node`live
      modifies f`inode
      ensures Consistent() && f.inode == null
      ensures open == old(open) - {f} && node.files == old(node.files) - {f}
      ensures forall n :: n in list <==> n in old(list) && (n == node ==> node.files != {})
      ensures node.files != {} ==> node.aRegion == old(node.aRegion)
    {
      hide Linked, Registered, Populated, InodesValid, SlotsExist, OpfsFile.Blank;
      InodeRelease(f, node);
      f.inode := null;
    }

    /** opfsClose lets go of slots only through xShmUnmap, so they must not be held without a mapping. */
    ghost predicate Closable(f: OpfsFile)
      reads f`hasShm, f`sharedShm, f`exclShm
    {
      f.hasShm || (f.sharedShm == {} && f.exclShm == {})
    }

    /** opfsClose; a file whose open failed has nothing to close. */
    method Close(f: OpfsFile)
      requires Valid() && (f.inode == null || (f in open && Closable(f)))
      modifies `inodes, `list, `open, f, list, pool, pool.dir
      ensures Valid() && f.inode == null && open == old(open) - {f} && NamedByNone(f)
      ensures var del := old(f.inode) != null && old(f.deleteOnClose);
              && pool.Files() == (if del then old(pool.Files()) - {old(OwnPath(f))} else old(pool.Files()))
              && pool.Table() == (if del then Act(old(pool.Table()), Op.Remove(old(OwnPath(f)))) else old(pool.Table()))
              && OnlyItLosesSlots(del, old(OwnPath(f))) && pool.names == old(pool.names)
      ensures RegionsKept(f) && forall n :: n in list <==> n in old(list) && old(n.files) - {f} != {}
    {
      hide Linked, Registered, Populated, InodesValid, SlotsExist, OpfsPool.Valid, NamedByNone, Keeps, SlotData;
      hide SlotPath, Act;
      if f.inode == null {
        NotOpen(f);
        Forgotten(f);
        RegionsEnd(f);
        return;
      }
      CloseOpen(f, f.inode);
      Forgotten(f);
    }

    /** Elsewhere f has nothing mapped, and what nobody has mapped has no regions. */
    lemma RegionsEnd(f: OpfsFile)
      requires Registered() && InodesValid()
      ensures forall n :: n in list && (f !in n.files || !f.hasShm) ==> n.mapped - {f} == n.mapped
      ensures forall n :: n in list && n.mapped == {} ==> n.aRegion == []
    {
      hide OpfsInode.Valid;
      forall n | n in list
        ensures (f !in n.files || !f.hasShm ==> n.mapped - {f} == n.mapped) && (n.mapped == {} ==> n.aRegion == [])
      {
        n.MappedAreFiles();
      }
    }

    lemma NotOpen(f: OpfsFile)
      requires Registered() && Populated() && f.inode == null
      ensures f !in open && open - {f} == open
      ensures forall n :: n in list ==> n.files - {f} == n.files && n.files != {}
    {}
  }
}
