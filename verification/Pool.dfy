/** The pool of emscripten/opfs-pool.js as the object it is, over a directory of files. */
module OpfsPools {
  import opened Words
  import opened Digest
  import opened Sequences
  import opened Header
  import opened Bindings
  import opened SlotTables
  import opened PoolSpec
  import Recovery

  /** The directory: the contents behind each access handle, and every call made so far. */
  class Directory {
    var files: map<Name, Bytes>
    ghost var log: seq<Step>

    constructor (files: map<Name, Bytes>)
      ensures this.files == files && log == []
    {
      this.files, log := files, [];
    }

    /** getFileHandle(name, {create: true}) for a name that is not there yet. */
    method Create(name: Name)
      requires name !in files
      modifies this
      ensures files == old(files)[name := []] && log == old(log)
    {
      files := files[name := []];
    }

    method Write(name: Name, at: nat, data: Bytes)
      requires name in files
      modifies this
      ensures files == old(files)[name := Do(old(files)[name], Call.Write(at, data))]
      ensures log == old(log) + [Step(name, Call.Write(at, data))]
    {
      files := files[name := WriteAt(files[name], at, data)];
      log := log + [Step(name, Call.Write(at, data))];
    }

    method Truncate(name: Name, size: nat)
      requires name in files
      modifies this
      ensures files == old(files)[name := Do(old(files)[name], Call.Truncate(size))]
      ensures log == old(log) + [Step(name, Call.Truncate(size))]
    {
      files := files[name := Resize(files[name], size)];
      log := log + [Step(name, Call.Truncate(size))];
    }

    method Flush(name: Name)
      requires name in files
      modifies this`log
      ensures log == old(log) + [Step(name, Call.Flush)]
    {
      log := log + [Step(name, Call.Flush)];
    }
  }

  /** paths.filter((p) => p) */
  method KeepUsed(paths: seq<Path>) returns (used: seq<Path>)
    requires forall i, j :: 0 <= i < j < |paths| && paths[i] != [] ==> paths[i] != paths[j]
    ensures forall x :: x in used <==> x != [] && x in paths
    ensures Distinct(used)
  {
    used := [];
    for i := 0 to |paths|
      invariant forall x :: x in used <==> x != [] && x in paths[..i]
      invariant Distinct(used)
    {
      assert paths[..i + 1] == paths[..i] + [paths[i]];
      if paths[i] != [] {
        assert forall j :: 0 <= j < i ==> paths[j] != paths[i];
        assert paths[i] !in paths[..i];
        used := used + [paths[i]];
      }
    }
    assert paths[..|paths|] == paths;
  }

  /** paths.filter((p) => !p).length */
  method CountFree(paths: seq<Path>, ghost slots: seq<Slot>) returns (n: nat)
    requires |slots| == |paths| && forall i :: 0 <= i < |paths| ==> slots[i].path == paths[i]
    ensures n == FreeCount(slots)
  {
    n := 0;
    for i := 0 to |paths|
      invariant n == FreeCount(slots[..i])
    {
      assert slots[..i + 1][..i] == slots[..i];
      if paths[i] == [] {
        n := n + 1;
      }
    }
    assert slots[..|paths|] == slots;
  }

  class OpfsPool {
    const dir: Directory
    var names: seq<Name>
    var paths: seq<Path>
    var flags: seq<Word>
    var byPath: map<Path, nat>

    constructor (dir: Directory)
      ensures this.dir == dir && names == [] && paths == [] && flags == [] && byPath == map[]
    {
      this.dir := dir;
      names, paths, flags, byPath := [], [], [], map[];
    }

    ghost function View(): Pool
      reads this, dir
    {
      Pool(names, paths, flags, dir.files)
    }

    /** byPath and the non-empty entries of paths are each other's inverses. */
    ghost predicate Indexed()
      reads this
    {
      && (forall x :: x in byPath ==> byPath[x] < |paths| && x != [] && paths[byPath[x]] == x)
      && (forall i :: 0 <= i < |paths| && paths[i] != [] ==> paths[i] in byPath && byPath[paths[i]] == i)
    }

    ghost predicate Valid()
      reads this, dir
    {
      Good(View()) && Indexed()
    }

    /** The map from path to contents the pool stands for. */
    ghost function Files(): Fs
      requires Valid()
      reads this, dir
    {
      FsOf(View())
    }

    /** The table of slots it is, free ones with what is left in them. */
    ghost function Table(): SlotTables.Table
      requires Valid()
      reads this, dir
    {
      Slots(View())
    }

    /** byPath.get */
    method Lookup(path: Path) returns (slot: int)
      requires Indexed()
      ensures slot == Find(View(), path) && (slot < 0 <==> path !in byPath)
    {
      if path in byPath {
        slot := byPath[path];
      } else {
        slot := -1;
      }
    }

    /** #free */
    method FreeIndex() returns (slot: int)
      ensures slot == FreeSlot(View())
    {
      slot := 0;
      while slot < |paths|
        invariant 0 <= slot <= |paths|
        invariant IndexOf(paths, [], slot) == IndexOf(paths, [], 0)
      {
        if paths[slot] == [] {
          return;
        }
        slot := slot + 1;
      }
      slot := -1;
    }

    /** The first half of #setPath: corpus, digest, flush. */
    method PutHeader(slot: nat, path: Path, newFlags: Word)
      requires slot < |names| && names[slot] in dir.files && Fits(path)
      modifies dir
      ensures var calls := SetPathCalls(path, newFlags)[..3];
              dir.files == old(dir.files)[names[slot] := Play(old(dir.files)[names[slot]], calls)]
      ensures dir.log == old(dir.log) + On(names[slot], SetPathCalls(path, newFlags)[..3])
    {
      ghost var calls := SetPathCalls(path, newFlags);
      var corpus := Corpus(path, newFlags);
      var digest := ComputeDigest(corpus);
      var digestBytes := Le32(digest.h1) + Le32(digest.h2);
      assert calls[..3] == [Call.Write(0, corpus), Call.Write(CORPUS_SIZE, digestBytes), Call.Flush];
      PlaySetPath(dir.files[names[slot]], path, newFlags);
      hide Corpus, DigestOf, WriteAt, Le32, SetPathCalls, Play;
      dir.Write(names[slot], 0, corpus);
      dir.Write(names[slot], CORPUS_SIZE, digestBytes);
      dir.Flush(names[slot]);
    }

    /** The second half: the index, both ways. */
    method Reindex(slot: nat, path: Path, newFlags: Word)
      requires slot < |paths| == |flags|
      modifies `paths, `flags, `byPath
      ensures paths == old(paths)[slot := path] && flags == old(flags)[slot := newFlags]
      ensures old(Indexed()) && (path in old(byPath) ==> old(byPath)[path] == slot) ==> Indexed()
      ensures path == old(paths)[slot] == [] ==> byPath == old(byPath)
    {
      var was := paths[slot];
      if was != [] {
        byPath := byPath - {was};
      }
      paths := paths[slot := path];
      flags := flags[slot := newFlags];
      if path != [] {
        byPath := byPath[path := slot];
      }
    }

    /** #setPath: refused before anything is touched if the path does not fit. */
    method SetPath(slot: nat, path: Path, newFlags: Word) returns (ok: bool)
      requires slot < |names| == |paths| == |flags| && names[slot] in dir.files
      modifies `paths, `flags, `byPath, dir
      ensures ok == Fits(path) == (|path| < 512)
      ensures View() == if ok then PoolSpec.SetPath(old(View()), slot, path, newFlags) else old(View())
      ensures dir.log == old(dir.log) + if ok then On(names[slot], SetPathCalls(path, newFlags)) else []
      ensures old(Indexed()) && (path in old(byPath) ==> old(byPath)[path] == slot) ==> Indexed()
      ensures path == old(paths)[slot] == [] ==> byPath == old(byPath)
    {
      if |path| >= MAX_PATH_SIZE {
        assert old(dir.log) + [] == dir.log;
        return false;
      }
      ghost var name, file := names[slot], dir.files[names[slot]];
      WholeOfSetPath(name, file, path, newFlags);
      hide SetPathCalls, Play, Resize, On, Indexed;
      PutHeader(slot, path, newFlags);
      Reindex(slot, path, newFlags);
      if path == [] {
        dir.Truncate(names[slot], SECTOR_SIZE);
      }
      assert dir.files == old(dir.files)[name := Play(file, SetPathCalls(path, newFlags))];
      return true;
    }

    /** The calls of PutHeader, and the truncate when the slot is freed, are all of them. */
    lemma WholeOfSetPath(name: Name, file: Bytes, path: Path, f: Word)
      requires Fits(path)
      ensures var first := SetPathCalls(path, f)[..3];
              if path == []
              then && Play(file, SetPathCalls(path, f)) == Resize(Play(file, first), SECTOR_SIZE)
                   && On(name, SetPathCalls(path, f)) == On(name, first) + [Step(name, Call.Truncate(SECTOR_SIZE))]
              else SetPathCalls(path, f) == first
    {
      PlaySetPath(file, path, f);
      hide Corpus, DigestBytes, DigestOf;
    }

    /** The operation was carried out on the pool p, and these were the handle calls it made. */
    ghost predicate Done(p: Pool, log: seq<Step>, op: Op)
      reads this, dir
    {
      Sized(p) && View() == After(p, op) && dir.log == log + Steps(p, op)
    }

    // -- init -----------------------------------------------------------------------

    /** A slot pushed onto the pool p was read as `found`: these are the flags, the file and the calls. */
    ghost predicate ReadAs(p: Pool, log: seq<Step>, slot: nat, found: Reading)
      requires slot < |p.names| == |p.flags| && p.names[slot] in p.files
      reads this, dir
    {
      && names == p.names && paths == p.paths && flags == p.flags[slot := found.flags]
      && dir.files == p.files[p.names[slot] := Play(FileOf(p, slot), found.calls)]
      && dir.log == log + On(p.names[slot], found.calls)
    }

    method DiscardFile(slot: nat) returns (path: Path)
      requires slot < |names| == |paths| == |flags| && names[slot] in dir.files && paths[slot] == []
      modifies `paths, `flags, `byPath, dir
      ensures byPath == old(byPath) && path == [] && ReadAs(old(View()), old(dir.log), slot, Discard())
    {
      hide SetPathCalls, Play, On;
      var ok := SetPath(slot, [], 0);
      assert old(paths)[slot := []] == old(paths);
      path := [];
    }

    /** The stored digest, read into a buffer of zeros, against the one of the corpus. */
    static method DigestFits(file: Bytes, corpus: Bytes) returns (fits: bool)
      requires |corpus| > 0
      ensures fits <==> StoredDigest(file) == DigestBytes(corpus)
    {
      var got := ReadAt(file, CORPUS_SIZE, 8);
      var digest := got + Zeros(8 - |got|);
      var want := ComputeDigest(corpus);
      return digest == Le32(want.h1) + Le32(want.h2);
    }

    /** #readPath, on a slot that has just been pushed. */
    method ReadPath(slot: nat) returns (path: Path)
      requires slot < |names| == |paths| == |flags| && names[slot] in dir.files && paths[slot] == []
      modifies `paths, `flags, `byPath, dir
      ensures var found := Header.Read(old(dir.files)[names[slot]]);
              byPath == old(byPath) && path == found.path && ReadAs(old(View()), old(dir.log), slot, found)
    {
      var name, file := names[slot], dir.files[names[slot]];
      ReadingSteps(file);
      hide Header.Read, Discard, Play, DigestBytes, DigestOf, IndexOf, Decode, StoredDigest, On, PersistentType;
      hide DeleteOnClose, FromBe32;
      var corpus := ReadAt(file, 0, CORPUS_SIZE);
      if |corpus| < CORPUS_SIZE {
        path := DiscardFile(slot);
        return;
      }
      var stored := FromBe32(corpus[MAX_PATH_SIZE..]);
      flags := flags[slot := stored];
      assert flags[slot := 0] == old(flags)[slot := 0];
      if corpus[0] != 0 && (DeleteOnClose(stored) || !PersistentType(stored)) {
        path := DiscardFile(slot);
        return;
      }
      var fits := DigestFits(file, corpus);
      if !fits {
        path := DiscardFile(slot);
        return;
      }
      var end := IndexOf(corpus, 0, 0);
      if end == 0 {
        dir.Truncate(name, SECTOR_SIZE);
        return [];
      }
      return Decode(corpus[..if end < 0 then CORPUS_SIZE - 1 else end]);
    }

    /** Header.Read, in the terms of the tests above. */
    lemma ReadingSteps(file: Bytes)
      ensures var corpus := ReadAt(file, 0, CORPUS_SIZE);
              if |corpus| < CORPUS_SIZE then Header.Read(file) == Discard()
              else
                var stored := FromBe32(corpus[MAX_PATH_SIZE..]);
                var end := IndexOf(corpus, 0, 0);
                if corpus[0] != 0 && (DeleteOnClose(stored) || !PersistentType(stored)) then
                  Header.Read(file) == Discard()
                else if StoredDigest(file) != DigestBytes(corpus) then Header.Read(file) == Discard()
                else if end == 0 then
                  Header.Read(file) == Reading([], stored, [Call.Truncate(SECTOR_SIZE)])
                else
                  Header.Read(file) == Reading(Decode(corpus[..if end < 0 then CORPUS_SIZE - 1 else end]), stored, [])
      ensures Discard().path == [] && Discard().flags == 0
      ensures Play(file, [Call.Truncate(SECTOR_SIZE)]) == Do(file, Call.Truncate(SECTOR_SIZE)) && Play(file, []) == file
    {
      OneTruncate(file);
    }

    /** The index while files are still being adopted: two files may yet claim one path. */
    ghost predicate Claimed()
      reads this
    {
      && (forall x :: x in byPath ==> byPath[x] < |paths| && x != [] && paths[byPath[x]] == x)
      && (forall i :: 0 <= i < |paths| && paths[i] != [] ==> paths[i] in byPath)
    }

    /** #adopt */
    method Adopt(name: Name)
      requires |names| == |paths| == |flags| && name in dir.files && Claimed()
      modifies this, dir
      ensures Claimed()
      ensures var file := old(dir.files)[name];
              && names == old(names) + [name]
              && paths == old(paths) + [Header.Read(file).path]
              && flags == old(flags) + [Header.Read(file).flags]
              && dir.files == old(dir.files)[name := Settled(file)]
              && dir.log == old(dir.log) + On(name, Header.Read(file).calls)
    {
      hide Header.Read, Play, On;
      var slot := |names|;
      names := names + [name];
      paths := paths + [[]];
      flags := flags + [0];
      var path := ReadPath(slot);
      if path != [] {
        paths := paths[slot := path];
        byPath := byPath[path := slot];
      }
    }

    /**
     * init: adopt every file found, in whatever order the directory gives them,
     * then create files until there are enough. The random names are given.
     */
    method Init(capacity: nat, order: seq<Name>, created: seq<Name>)
      requires names == [] && paths == [] && flags == [] && byPath == map[]
      requires Recovery.Mountable(dir.files, order, created)
      requires |created| == if capacity <= |order| then 0 else capacity - |order|
      modifies this, dir
      ensures View() == Recovery.Reload(old(dir.files), order, created)
      ensures Good(View()) ==> Valid() && Swept(View())
      ensures Swept(View()) <==> forall n :: n in old(dir.files) ==> !Recovery.Hidden(old(dir.files)[n])
      ensures |names| == if capacity <= |order| then |order| else capacity
    {
      ghost var files := dir.files;
      Recovery.DistinctParts(order, created);
      AdoptAll(order);
      assert order + created[..0] == order;
      hide Distinct, Recovery.FilesIn, Recovery.PathsIn, Recovery.AllFlagsIn;
      var j := 0;
      while |names| < capacity
        invariant 0 <= j <= |created| && |names| == |order| + j
        invariant Claimed() && Created(files, order, created, j)
        decreases |created| - j
      {
        CreateNext(files, order, created, j);
        j := j + 1;
      }
      assert created[..j] == created;
      hide Recovery.Hidden, Swept, HeadersAgree;
      Recovery.ReloadSweeps(files, order, created);
      if Good(View()) {
        Recovery.GoodIsSwept(files, order, created);
        ClaimedOnce();
      }
    }

    method AdoptAll(order: seq<Name>)
      requires names == [] && paths == [] && flags == [] && byPath == map[]
      requires Distinct(order) && dir.files.Keys == (set n | n in order)
      modifies this, dir
      ensures Claimed() && Created(old(dir.files), order, [], 0)
    {
      ghost var files := dir.files;
      for i := 0 to |order|
        invariant Claimed() && Adopted(files, order, i)
      {
        AdoptNext(files, order, i);
      }
      assert order[..|order|] == order && order + [] == order;
      assert dir.files == Recovery.FilesIn(files, names);
    }

    /** When no path is in two slots, the last claim on a path is the only one. */
    lemma ClaimedOnce()
      requires Good(View()) && Claimed()
      ensures Indexed()
    {
      forall i | 0 <= i < |paths| && paths[i] != []
        ensures byPath[paths[i]] == i
      {
        SlotBinds(Slots(View()), i);
        assert Slots(View())[byPath[paths[i]]].path == paths[i];
      }
    }

    /** The pool once the first i files have been adopted. */
    ghost predicate Adopted(files: map<Name, Bytes>, order: seq<Name>, i: nat)
      requires i <= |order|
      reads this, dir
    {
      && names == order[..i] && paths == Recovery.PathsIn(files, names) && flags == Recovery.AllFlagsIn(files, names)
      && dir.files.Keys == files.Keys
      && forall n :: n in files ==> dir.files[n] == if n in names then Settled(files[n]) else files[n]
    }

    /** The pool once every file has been adopted and j more have been created. */
    ghost predicate Created(files: map<Name, Bytes>, order: seq<Name>, created: seq<Name>, j: nat)
      requires j <= |created|
      reads this, dir
    {
      && names == order + created[..j]
      && paths == Recovery.PathsIn(files, names) && flags == Recovery.AllFlagsIn(files, names)
      && dir.files == Recovery.FilesIn(files, names)
    }

    method AdoptNext(ghost files: map<Name, Bytes>, order: seq<Name>, i: nat)
      requires i < |order| && order[i] in files && Distinct(order)
      requires Claimed() && Adopted(files, order, i)
      modifies this, dir
      ensures Claimed() && Adopted(files, order, i + 1)
    {
      hide Header.Read, Play;
      assert order[..i + 1] == order[..i] + [order[i]];
      assert order[i] !in order[..i];
      Adopt(order[i]);
      assert paths == Recovery.PathsIn(files, names);
      assert flags == Recovery.AllFlagsIn(files, names);
    }

    method CreateNext(ghost files: map<Name, Bytes>, ghost order: seq<Name>, created: seq<Name>, j: nat)
      requires j < |created| && created[j] !in files && Distinct(order + created)
      requires Claimed() && Created(files, order, created, j)
      modifies this, dir
      ensures Claimed() && Created(files, order, created, j + 1)
    {
      Recovery.DistinctParts(order, created);
      assert created[..j + 1] == created[..j] + [created[j]];
      assert order + created[..j + 1] == names + [created[j]];
      hide Distinct, Recovery.NewFile, Recovery.PathsIn, Recovery.AllFlagsIn, Recovery.FilesIn;
      Recovery.OneMoreCreated(files, names, created[j]);
      CreateFile(created[j]);
    }

    /** The body of init's creating loop. */
    method CreateFile(name: Name)
      requires |names| == |paths| == |flags| && name !in dir.files && Claimed()
      modifies this, dir
      ensures Claimed()
      ensures names == old(names) + [name] && paths == old(paths) + [[]] && flags == old(flags) + [0]
      ensures dir.files == old(dir.files)[name := Recovery.NewFile()]
    {
      Recovery.NewFileSteps();
      hide Header.Read, Play, SetPathCalls, Discard, Recovery.NewFile, On, Header.Settled;
      dir.Create(name);
      Adopt(name);
      ghost var before := paths;
      var ok := SetPath(|names| - 1, [], 0);
      assert paths == before;
    }

    // -- what opfsvfs.c calls ----------------------------------------------------

    /** A slot, -1 when there is no such path, -2 when no slot is free; a path that is too long throws. */
    method Open(path: Path, create: bool, newFlags: Word) returns (slot: int, threw: bool)
      requires Valid() && NulFree(path)
      modifies this, dir
      ensures Valid()
      ensures OpenAnswer(old(View()), View(), path, create, newFlags, slot, threw)
      ensures if create then Done(old(View()), old(dir.log), Op.Open(path, newFlags))
              else View() == old(View()) && dir.log == old(dir.log)
    {
      hide Good, OpenAnswer, FreeSlot, Find, After, Steps, NulFree, Distinct;
      OpenAnswers(View(), path, newFlags);
      if Find(View(), path) >= 0 || FreeSlot(View()) < 0 {
        OpenChangesNothing(View(), path, newFlags);
      }
      threw := false;
      slot := Lookup(path);
      if slot < 0 {
        if !create {
          return -1, false;
        }
        slot, threw := Claim(path, newFlags);
      }
    }

    lemma OpenChangesNothing(p: Pool, path: Path, f: Word)
      requires Sized(p) && (Find(p, path) >= 0 || FreeSlot(p) < 0)
      ensures After(p, Op.Open(path, f)) == p && Steps(p, Op.Open(path, f)) == []
    {}

    /** The part of open that gives a free slot to a new path. */
    method Claim(path: Path, newFlags: Word) returns (slot: int, threw: bool)
      requires Sized(View()) && Indexed() && path !in byPath && Find(View(), path) < 0
      modifies this, dir
      ensures Indexed() && Done(old(View()), old(dir.log), Op.Open(path, newFlags))
      ensures if old(FreeSlot(View())) < 0 then slot == -2 && !threw
              else slot == old(FreeSlot(View())) && threw == !Fits(path)
    {
      hide Distinct, SetPathCalls, PoolSpec.SetPath, Find, On;
      slot := FreeIndex();
      if slot < 0 {
        return -2, false;
      }
      var ok := SetPath(slot, path, newFlags);
      threw := !ok;
    }

    /** What open answers, told from the map and the first free slot. */
    static ghost predicate OpenAnswer(p: Pool, q: Pool, path: Path, create: bool, f: Word, slot: int, threw: bool) {
      && Good(p) && Good(q)
      && if path in FsOf(p) then !threw && slot >= 0 && slot == Find(q, path) && q == p
         else if !create then !threw && slot == -1 && q == p
         else if |FsOf(p)| == |p.names| then !threw && slot == -2 && q == p
         else if !Fits(path) then threw && q == p
         else
           && !threw && slot == FreeSlot(p) && 0 <= slot < |q.names|
           && Slots(q) == Given(Slots(p), slot, path, f)
           && if path == [] then FsOf(q) == FsOf(p)
              else slot == Find(q, path) && FsOf(q) == FsOf(p)[path := Entry(f, Slots(p)[slot].entry.data)]
    }

    lemma OpenAnswers(p: Pool, path: Path, f: Word)
      requires Good(p) && NulFree(path)
      ensures Sized(p)
      ensures Find(p, path) >= 0 ==> OpenAnswer(p, p, path, true, f, Find(p, path), false)
                                     && OpenAnswer(p, p, path, false, f, Find(p, path), false)
      ensures Find(p, path) < 0 ==> OpenAnswer(p, p, path, false, f, -1, false)
      ensures Find(p, path) < 0 && FreeSlot(p) < 0 ==> OpenAnswer(p, p, path, true, f, -2, false)
      ensures Find(p, path) < 0 && FreeSlot(p) >= 0 ==>
                OpenAnswer(p, After(p, Op.Open(path, f)), path, true, f, FreeSlot(p), !Fits(path))
      ensures Good(After(p, Op.Open(path, f)))
    {
      var q := After(p, Op.Open(path, f));
      FindTells(p, path);
      TableFinds(p, path);
      OperationsMeet(p, Op.Open(path, f));
      FindTells(q, path);
      TableFinds(q, path);
      hide HeadersAgree, MapOf, DistinctPaths, SetPathCalls, Play, Data;
      if Find(p, path) < 0 && FreeSlot(p) >= 0 && Fits(path) && path != [] {
        SlotTells(Slots(q), path);
        assert Slots(q)[FreeSlot(p)].path == path;
      }
    }

    method Remove(path: Path) returns (found: bool)
      requires Valid()
      modifies this, dir
      ensures Valid() && Done(old(View()), old(dir.log), Op.Remove(path)) && Files() == old(Files()) - {path}
      ensures Table() == Act(old(Table()), Op.Remove(path))
      ensures (found <==> path in old(Files())) && names == old(names)
    {
      hide Good, Act, AfterRemove, RemoveSteps, MapOf, Find;
      RemoveAnswers(View(), path);
      found := RemoveQuietly(path);
    }

    lemma RemoveAnswers(p: Pool, path: Path)
      requires Good(p)
      ensures Sized(p) && (Find(p, path) >= 0 <==> path in FsOf(p))
      ensures var q := AfterRemove(p, path);
              Good(q) && Slots(q) == Act(Slots(p), Op.Remove(path)) && FsOf(q) == FsOf(p) - {path}
    {
      hide HeadersAgree, DistinctPaths, MapOf, Act, Find;
      FindTells(p, path);
      OperationsMeet(p, Op.Remove(path));
    }

    /** True when `from` exists; a new name that is too long throws, with nothing changed. */
    method Rename(from: Path, to: Path) returns (found: bool, threw: bool)
      requires Valid() && NulFree(to)
      modifies this, dir
      ensures Valid() && Done(old(View()), old(dir.log), Op.Rename(from, to))
      ensures Table() == Act(old(Table()), Op.Rename(from, to))
      ensures Files() == Plain(old(Files()), |names|, Move(from, to))
      ensures found <==> from in old(Files())
      ensures (threw <==> found && !Fits(to)) && names == old(names)
      ensures !found || threw ==> View() == old(View()) && dir.log == old(dir.log)
    {
      RenameAnswers(View(), from, to);
      hide Good, Act, Plain, After, Steps, FsOf, NulFree;
      threw := false;
      var slot := Lookup(from);
      if slot < 0 {
        return false, false;
      }
      var ok := MoveSlot(slot, from, to);
      return true, !ok;
    }

    /** The part of rename that follows a successful lookup. */
    method MoveSlot(slot: nat, from: Path, to: Path) returns (ok: bool)
      requires Sized(View()) && Indexed() && Find(View(), from) == slot
      modifies this, dir
      ensures ok == Fits(to)
      ensures Indexed() && Done(old(View()), old(dir.log), Op.Rename(from, to))
    {
      hide SetPathCalls, PoolSpec.SetPath, AfterRemove, RemoveSteps, Distinct, Holder, On;
      ghost var log := dir.log;
      var kept := flags[slot];
      var dropped := RemoveQuietly(to);
      ok := SetPath(slot, to, kept);
      assert RenameSteps(old(View()), from, to) == RemoveSteps(old(View()), to)
                                                   + if ok then On(names[slot], SetPathCalls(to, kept)) else [];
      assert dir.log == log + RenameSteps(old(View()), from, to);
    }

    /** remove, told by its handle calls. */
    method RemoveQuietly(path: Path) returns (found: bool)
      requires Sized(View()) && Indexed()
      modifies this, dir
      ensures Indexed() && path !in byPath && names == old(names)
      ensures View() == AfterRemove(old(View()), path) && (found <==> Find(old(View()), path) >= 0)
      ensures dir.log == old(dir.log) + RemoveSteps(old(View()), path)
    {
      hide SetPathCalls, Distinct, On;
      var slot := Lookup(path);
      if slot < 0 {
        return false;
      }
      var ok := SetPath(slot, [], 0);
      return true;
    }

    lemma RenameAnswers(p: Pool, from: Path, to: Path)
      requires Good(p) && NulFree(to)
      ensures Sized(p) && (Find(p, from) >= 0 <==> from in FsOf(p))
      ensures var q := After(p, Op.Rename(from, to));
              && Good(q) && Slots(q) == Act(Slots(p), Op.Rename(from, to))
              && FsOf(q) == Plain(FsOf(p), |p.names|, Move(from, to))
      ensures Find(p, from) < 0 || !Fits(to) ==>
                After(p, Op.Rename(from, to)) == p && Steps(p, Op.Rename(from, to)) == []
    {
      hide HeadersAgree, MapOf, DistinctPaths, SetPathCalls, Play, Act, Plain, PoolSpec.SetPath;
      FindTells(p, from);
      OperationsMeet(p, Op.Rename(from, to));
      if !Fits(to) {
        TableIsOk(p);
        TableFinds(p, to);
        LongPathsAbsent(Slots(p), to);
      }
    }

    // -- data, by slot --------------------------------------------------------------

    /** What the slot's path is bound to. */
    ghost function Contents(slot: nat): Bytes
      requires Valid() && slot < |names|
      reads this, dir
    {
      Data(FileOf(View(), slot))
    }

    lemma TableSized()
      requires Valid()
      ensures Sized(View()) && |Table()| == |names|
    {}

    lemma ContentsAreBound(slot: nat)
      requires Valid() && slot < |names| && paths[slot] != []
      ensures paths[slot] in Files() && Files()[paths[slot]].data == Contents(slot)
      ensures Find(View(), paths[slot]) == slot
    {
      FindTells(View(), paths[slot]);
      SlotBinds(Slots(View()), slot);
      assert Slots(View())[Find(View(), paths[slot])].path == paths[slot];
    }

    method Read(slot: nat, n: nat, off: nat) returns (data: Bytes)
      requires Valid() && slot < |names|
      ensures data == ReadAt(Contents(slot), off, n)
      ensures |data| <= n && (|data| < n ==> off + |data| >= |Contents(slot)|)
      ensures forall k :: 0 <= k < |data| ==> off + k < |Contents(slot)| && data[k] == Contents(slot)[off + k]
    {
      ReadBytes(Contents(slot), off, n);
      LongEnough(View(), slot);
      ReadBehindHeader(FileOf(View(), slot), off, n);
      hide Good, ReadAt, Data;
      data := ReadAt(dir.files[names[slot]], SECTOR_SIZE + off, n);
    }

    /** The number of bytes written. A free slot is written to like any other, which no path notices. */
    method Write(slot: nat, data: Bytes, off: nat) returns (written: nat)
      requires Valid() && slot < |names|
      modifies dir
      ensures Valid() && Done(old(View()), old(dir.log), WriteSlot(slot, off, data)) && written == |data|
      ensures Table() == Act(old(Table()), WriteSlot(slot, off, data))
      ensures Overwritten(old(Contents(slot)), Contents(slot), off, data)
      ensures forall j: nat :: j < |names| && j != slot ==> Contents(j) == old(Contents(j))
      ensures Files() == if paths[slot] == [] then old(Files())
                         else Plain(old(Files()), |names|, Put(paths[slot], off, data))
    {
      hide Good, Sized, FsOf, Act, Plain, Meaning, After, Steps;
      hide Overwritten, Recut;
      DataOpAnswers(View(), WriteSlot(slot, off, data));
      TableSized();
      DataCallsWrite(Table(), slot, off, data, 0);
      WriteBehind(slot, off, data);
      written := |data|;
    }

    method Truncate(slot: nat, size: nat)
      requires Valid() && slot < |names|
      modifies dir
      ensures Valid() && Done(old(View()), old(dir.log), TruncateSlot(slot, size))
      ensures Table() == Act(old(Table()), TruncateSlot(slot, size))
      ensures Recut(old(Contents(slot)), Contents(slot), size)
      ensures forall j: nat :: j < |names| && j != slot ==> Contents(j) == old(Contents(j))
      ensures Files() == if paths[slot] == [] then old(Files())
                         else Plain(old(Files()), |names|, Cut(paths[slot], size))
    {
      hide Good, Sized, FsOf, Act, Plain, Meaning, After, Steps;
      hide Overwritten, Recut;
      DataOpAnswers(View(), TruncateSlot(slot, size));
      TableSized();
      DataCallsWrite(Table(), slot, 0, [], size);
      TruncateBehind(slot, size);
    }

    /** Flushing, which is all that close does here. */
    method Flush(slot: nat)
      requires Valid() && slot < |names|
      modifies dir`log
      ensures Valid() && View() == old(View())
      ensures dir.log == old(dir.log) + [Step(names[slot], Call.Flush)]
    {
      dir.Flush(names[slot]);
      assert View() == old(View());
    }

    method Size(slot: nat) returns (size: nat)
      requires Valid() && slot < |names|
      ensures size == |Contents(slot)|
    {
      LongEnough(View(), slot);
      size := |dir.files[names[slot]]| - SECTOR_SIZE;
    }

    method Exists(path: Path) returns (found: bool)
      requires Valid()
      ensures found <==> path in Files()
    {
      FindTells(View(), path);
      var slot := Lookup(path);
      found := slot >= 0;
    }

    /** Every path in the pool, each once. */
    method List() returns (used: seq<Path>)
      requires Valid()
      ensures forall x :: x in used <==> x in Files()
      ensures Distinct(used)
    {
      PathsAreFiles();
      used := KeepUsed(paths);
    }

    lemma PathsAreFiles()
      requires Valid()
      ensures forall x :: x in Files() <==> x != [] && x in paths
      ensures forall i, j :: 0 <= i < j < |paths| && paths[i] != [] ==> paths[i] != paths[j]
    {
      forall x
        ensures x in Files() <==> x != [] && x in paths
      {
        PathBound(Slots(View()), x);
      }
      forall i, j | 0 <= i < j < |paths| && paths[i] != []
        ensures paths[i] != paths[j]
      {
        assert Slots(View())[i].path != Slots(View())[j].path;
      }
    }

    /** The number of free slots; with the paths in use it makes up the pool. */
    method Free() returns (n: nat)
      requires Valid()
      ensures n + |Files()| == |names|
    {
      ghost var slots := Slots(View());
      UsedPlusFree(slots);
      assert |slots| == |paths| && forall i :: 0 <= i < |paths| ==> slots[i].path == paths[i];
      n := CountFree(paths, slots);
    }

    /** The call of write, to the file behind the header. */
    method WriteBehind(slot: nat, off: nat, data: Bytes)
      requires Sized(View()) && slot < |names|
      modifies dir
      ensures Done(old(View()), old(dir.log), WriteSlot(slot, off, data))
    {
      DataOpsAreOneCall(View(), slot, Call.Write(SECTOR_SIZE + off, data));
      hide AfterData, DataSteps, Do, Distinct;
      dir.Write(names[slot], SECTOR_SIZE + off, data);
    }

    method TruncateBehind(slot: nat, size: nat)
      requires Sized(View()) && slot < |names|
      modifies dir
      ensures Done(old(View()), old(dir.log), TruncateSlot(slot, size))
    {
      DataOpsAreOneCall(View(), slot, Call.Truncate(SECTOR_SIZE + size));
      hide AfterData, DataSteps, Do, Distinct;
      dir.Truncate(names[slot], SECTOR_SIZE + size);
    }

    /** A data operation as the one call it is. */
    ghost function DataChanged(p: Pool, i: nat, call: Call): Pool
      requires Sized(p) && i < |p.names|
    {
      p.(files := p.files[p.names[i] := Do(FileOf(p, i), call)])
    }

    lemma DataOpsAreOneCall(p: Pool, i: nat, call: Call)
      requires Sized(p) && i < |p.names|
      ensures AfterData(p, i, call) == DataChanged(p, i, call)
      ensures DataSteps(p, i, call) == [Step(p.names[i], call)]
    {
      hide Do, Distinct;
      assert p.paths[i := p.paths[i]] == p.paths && p.flags[i := p.flags[i]] == p.flags;
    }

    lemma DataOpAnswers(p: Pool, op: Op)
      requires Good(p) && (op.WriteSlot? || op.TruncateSlot?)
      ensures Sized(p) && Good(After(p, op)) && Slots(After(p, op)) == Act(Slots(p), op)
      ensures FsOf(After(p, op)) == Plain(FsOf(p), |p.names|, Meaning(Slots(p), op))
      ensures op.slot < |p.names| ==>
                Meaning(Slots(p), op) == if p.paths[op.slot] == [] then Nothing
                                         else if op.WriteSlot? then Put(p.paths[op.slot], op.off, op.data)
                                         else Cut(p.paths[op.slot], op.size)
      ensures Plain(FsOf(p), |p.names|, Nothing) == FsOf(p)
    {
      hide HeadersAgree, After, Act, MapOf, DistinctPaths, WriteAt, Resize;
      OperationsMeet(p, op);
    }
  }
}
