/**
 * The pool of emscripten/opfs-pool.js as a value: the directory's files, the
 * in-memory index over them, the map from path to contents they stand for, and
 * the handle calls each operation makes.
 */
module PoolSpec {
  import opened Words
  import opened Sequences
  import opened Header
  import opened Bindings
  import opened SlotTables

  type Name = string

  /** Slot i is the access handle of file names[i]; paths[i] is empty when it is free. */
  datatype Pool = Pool(names: seq<Name>, paths: seq<Path>, flags: seq<Word>, files: map<Name, Bytes>)

  ghost predicate Sized(p: Pool) {
    && |p.names| == |p.paths| == |p.flags|
    && Distinct(p.names) && p.files.Keys == (set n | n in p.names)
  }

  function FileOf(p: Pool, i: nat): Bytes
    requires i < |p.names| && p.names[i] in p.files
  {
    p.files[p.names[i]]
  }

  ghost function Slots(p: Pool): (s: seq<Slot>)
    requires Sized(p)
    ensures |s| == |p.names|
    ensures forall i :: 0 <= i < |s| ==> s[i] == Slot(p.paths[i], Entry(p.flags[i], Data(FileOf(p, i))))
  {
    seq(|p.names|, i requires 0 <= i < |p.names| => Slot(p.paths[i], Entry(p.flags[i], Data(FileOf(p, i)))))
  }

  /** One file per slot, and no path in two slots. */
  ghost predicate Shaped(p: Pool) { Sized(p) && DistinctPaths(Slots(p)) }

  /** Every file bears the path the index has for it; some digests may be stale. */
  ghost predicate Bearing(p: Pool) {
    Shaped(p) && forall i :: 0 <= i < |p.names| ==> Bears(FileOf(p, i), p.paths[i], p.flags[i])
  }

  /** Every header agrees with the index. */
  ghost predicate HeadersAgree(p: Pool) {
    Sized(p) && forall i :: 0 <= i < |p.names| ==> SlotOk(FileOf(p, i), p.paths[i], p.flags[i])
  }

  /** Every slot is in good order: what holds between any two operations. */
  ghost predicate Good(p: Pool) { Shaped(p) && HeadersAgree(p) }

  /** Every free slot is a header and nothing else. */
  ghost predicate Swept(p: Pool)
    requires Sized(p)
  {
    forall i :: 0 <= i < |p.names| ==> SweptFile(FileOf(p, i), p.paths[i])
  }

  /** The map from path to contents the pool stands for. */
  ghost function FsOf(p: Pool): Fs
    requires Shaped(p)
  {
    MapOf(Slots(p))
  }

  // -- handle calls --------------------------------------------------------------

  /** A handle call on a named file. */
  datatype Step = Step(name: Name, call: Call)

  ghost predicate Names(steps: seq<Step>, names: set<Name>) {
    forall i :: 0 <= i < |steps| ==> steps[i].name in names
  }

  ghost function PlayAll(files: map<Name, Bytes>, steps: seq<Step>): (r: map<Name, Bytes>)
    requires Names(steps, files.Keys)
    ensures r.Keys == files.Keys
    decreases |steps|
  {
    if steps == [] then files
    else PlayAll(files[steps[0].name := Do(files[steps[0].name], steps[0].call)], steps[1..])
  }

  function On(name: Name, calls: seq<Call>): (s: seq<Step>)
    ensures |s| == |calls| && forall i :: 0 <= i < |s| ==> s[i] == Step(name, calls[i])
  {
    seq(|calls|, i requires 0 <= i < |calls| => Step(name, calls[i]))
  }

  lemma {:induction false} PlayAllConcat(files: map<Name, Bytes>, a: seq<Step>, b: seq<Step>)
    requires Names(a, files.Keys) && Names(b, files.Keys)
    ensures Names(a + b, files.Keys) && PlayAll(files, a + b) == PlayAll(PlayAll(files, a), b)
    decreases |a|
  {
    if a == [] {
      assert a + b == b;
    } else {
      assert (a + b)[1..] == a[1..] + b;
      PlayAllConcat(files[a[0].name := Do(files[a[0].name], a[0].call)], a[1..], b);
    }
  }

  lemma {:induction false} PlayAllOn(files: map<Name, Bytes>, name: Name, calls: seq<Call>)
    requires name in files
    ensures PlayAll(files, On(name, calls)) == files[name := Play(files[name], calls)]
    decreases |calls|
  {
    if calls == [] {
      assert files[name := files[name]] == files;
    } else {
      assert On(name, calls)[1..] == On(name, calls[1..]);
      var next := files[name := Do(files[name], calls[0])];
      PlayAllOn(next, name, calls[1..]);
      assert next[name := Play(next[name], calls[1..])] == files[name := Play(files[name], calls)];
    }
  }

  // -- one slot changes ------------------------------------------------------------

  /** Slot i with another path, flags and file. */
  function Replace(p: Pool, i: nat, path: Path, flags: Word, file: Bytes): Pool
    requires |p.names| == |p.paths| == |p.flags| && i < |p.names|
  {
    Pool(p.names, p.paths[i := path], p.flags[i := flags], p.files[p.names[i] := file])
  }

  lemma ReplaceSlots(p: Pool, i: nat, path: Path, flags: Word, file: Bytes)
    requires Sized(p) && i < |p.names|
    ensures var q := Replace(p, i, path, flags, file);
            && Sized(q) && Slots(q) == Slots(p)[i := Slot(path, Entry(flags, Data(file)))]
            && FileOf(q, i) == file
            && forall j :: 0 <= j < |p.names| && j != i ==> FileOf(q, j) == FileOf(p, j)
  {
    var q := Replace(p, i, path, flags, file);
    assert forall j :: 0 <= j < |p.names| && j != i ==> p.names[j] != p.names[i];
    assert q.files.Keys == p.files.Keys;
    assert forall j :: 0 <= j < |p.names| && j != i ==> FileOf(q, j) == FileOf(p, j);
  }

  /** A path may be given to slot i when it is a C string that fits and no other slot has it. */
  ghost predicate MayTake(p: Pool, i: nat, path: Path)
    requires Sized(p)
  {
    MayBind(Slots(p), i, path) && Fits(path) && NulFree(path)
  }

  /** Replacing what slot i holds: the new file has to bear the new path. */
  lemma ReplaceRebinds(p: Pool, i: nat, path: Path, flags: Word, file: Bytes)
    requires Good(p) && MayTake(p, i, path) && Bears(file, path, flags)
    ensures var q := Replace(p, i, path, flags, file);
            && Bearing(q) && FsOf(q) == Rebind(FsOf(p), p.paths[i], path, Entry(flags, Data(file)))
            && forall j :: 0 <= j < |p.names| && j != i ==> SlotOk(FileOf(q, j), q.paths[j], q.flags[j])
  {
    ReplaceSlots(p, i, path, flags, file);
    UpdateRebinds(Slots(p), i, Slot(path, Entry(flags, Data(file))));
    hide Bears, MapOf, DistinctPaths;
    var q := Replace(p, i, path, flags, file);
    forall j | 0 <= j < |p.names|
      ensures j != i ==> SlotOk(FileOf(q, j), q.paths[j], q.flags[j])
      ensures Bears(FileOf(q, j), q.paths[j], q.flags[j])
    {
      if j != i {
        assert SlotOk(FileOf(p, j), p.paths[j], p.flags[j]);
      }
    }
  }

  lemma ReplaceKeepsHeaders(p: Pool, i: nat, path: Path, flags: Word, file: Bytes)
    requires HeadersAgree(p) && i < |p.names| && SlotOk(file, path, flags)
    ensures var q := Replace(p, i, path, flags, file);
            HeadersAgree(q) && Slots(q) == Slots(p)[i := Slot(path, Entry(flags, Data(file)))]
  {
    ReplaceSlots(p, i, path, flags, file);
    hide SlotOk;
  }

  /** The pool once #setPath is done with slot i. */
  function SetPath(p: Pool, i: nat, path: Path, flags: Word): Pool
    requires |p.names| == |p.paths| == |p.flags| && i < |p.names| && p.names[i] in p.files && Fits(path)
  {
    Replace(p, i, path, flags, Play(FileOf(p, i), SetPathCalls(path, flags)))
  }

  /** #setPath leaves headers and index agreeing, and does to the table what it should. */
  lemma SetPathGives(p: Pool, i: nat, path: Path, flags: Word)
    requires HeadersAgree(p) && i < |p.names| && Fits(path) && NulFree(path)
    ensures var q := SetPath(p, i, path, flags);
            HeadersAgree(q) && Slots(q) == Given(Slots(p), i, path, flags)
  {
    assert SlotOk(FileOf(p, i), p.paths[i], p.flags[i]);
    SetPathSettles(FileOf(p, i), path, flags);
    var file := Play(FileOf(p, i), SetPathCalls(path, flags));
    assert path == [] ==> Data(file) == [];
    hide SlotOk, Play, SetPathCalls, Data;
    ReplaceKeepsHeaders(p, i, path, flags, file);
  }

  // -- the operations ----------------------------------------------------------------

  function Find(p: Pool, x: Path): int { Holder(p.paths, x) }

  function FreeSlot(p: Pool): int { IndexOf(p.paths, [], 0) }

  /** The table of the pool finds the same slots. */
  lemma TableFinds(p: Pool, x: Path)
    requires Sized(p)
    ensures Paths(Slots(p)) == p.paths
    ensures SlotOf(Slots(p), x) == Find(p, x) && FirstFree(Slots(p)) == FreeSlot(p)
  {
    assert Paths(Slots(p)) == p.paths;
  }

  ghost function RemoveSteps(p: Pool, path: Path): (s: seq<Step>)
    requires Sized(p)
    ensures Names(s, p.files.Keys)
  {
    if Find(p, path) < 0 then [] else On(p.names[Find(p, path)], SetPathCalls([], 0))
  }

  ghost function AfterRemove(p: Pool, path: Path): (q: Pool)
    requires Sized(p)
    ensures q.names == p.names && |q.paths| == |q.flags| == |p.names| && q.files.Keys == p.files.Keys
  {
    if Find(p, path) < 0 then p else SetPath(p, Find(p, path), [], 0)
  }

  ghost function OpenSteps(p: Pool, path: Path, flags: Word): (s: seq<Step>)
    requires Sized(p)
    ensures Names(s, p.files.Keys)
  {
    if Find(p, path) >= 0 || FreeSlot(p) < 0 || !Fits(path) then []
    else On(p.names[FreeSlot(p)], SetPathCalls(path, flags))
  }

  ghost function AfterOpen(p: Pool, path: Path, flags: Word): (q: Pool)
    requires Sized(p)
    ensures q.names == p.names && |q.paths| == |q.flags| == |p.names| && q.files.Keys == p.files.Keys
  {
    if Find(p, path) >= 0 || FreeSlot(p) < 0 || !Fits(path) then p else SetPath(p, FreeSlot(p), path, flags)
  }

  /** remove(to) comes first; a name that is too long is refused after it. */
  ghost function RenameSteps(p: Pool, from: Path, to: Path): (s: seq<Step>)
    requires Sized(p)
    ensures Names(s, p.files.Keys)
  {
    var i := Find(p, from);
    if i < 0 then []
    else RemoveSteps(p, to) + if Fits(to) then On(p.names[i], SetPathCalls(to, p.flags[i])) else []
  }

  ghost function AfterRename(p: Pool, from: Path, to: Path): (q: Pool)
    requires Sized(p)
    ensures q.names == p.names && |q.paths| == |q.flags| == |p.names| && q.files.Keys == p.files.Keys
  {
    var i := Find(p, from);
    if i < 0 then p
    else if Fits(to) then SetPath(AfterRemove(p, to), i, to, p.flags[i])
    else AfterRemove(p, to)
  }

  /** A write or truncate through a slot, free or not: one call, which only the data should notice. */
  ghost function DataSteps(p: Pool, i: nat, call: Call): (s: seq<Step>)
    requires Sized(p)
    ensures Names(s, p.files.Keys)
  {
    if i >= |p.names| then [] else On(p.names[i], [call])
  }

  ghost function AfterData(p: Pool, i: nat, call: Call): (q: Pool)
    requires Sized(p)
    ensures q.names == p.names && |q.paths| == |q.flags| == |p.names| && q.files.Keys == p.files.Keys
  {
    if i >= |p.names| then p else Replace(p, i, p.paths[i], p.flags[i], Do(FileOf(p, i), call))
  }

  /** The handle calls of an operation, in order. open is meant with create set. */
  ghost function Steps(p: Pool, op: Op): (s: seq<Step>)
    requires Sized(p)
    ensures Names(s, p.files.Keys)
  {
    match op
    case Open(path, flags) => OpenSteps(p, path, flags)
    case Remove(path) => RemoveSteps(p, path)
    case Rename(from, to) => RenameSteps(p, from, to)
    case WriteSlot(i, off, data) => DataSteps(p, i, Write(SECTOR_SIZE + off, data))
    case TruncateSlot(i, size) => DataSteps(p, i, Truncate(SECTOR_SIZE + size))
  }

  /** The pool once an operation is complete. */
  ghost function After(p: Pool, op: Op): (q: Pool)
    requires Sized(p)
    ensures q.names == p.names && |q.paths| == |q.flags| == |p.names| && q.files.Keys == p.files.Keys
  {
    match op
    case Open(path, flags) => AfterOpen(p, path, flags)
    case Remove(path) => AfterRemove(p, path)
    case Rename(from, to) => AfterRename(p, from, to)
    case WriteSlot(i, off, data) => AfterData(p, i, Write(SECTOR_SIZE + off, data))
    case TruncateSlot(i, size) => AfterData(p, i, Truncate(SECTOR_SIZE + size))
  }

  // -- the operations do to the table what they should ----------------------------------------

  /** Find and FreeSlot answer for the map. */
  lemma FindTells(p: Pool, x: Path)
    requires Good(p)
    ensures Find(p, x) >= 0 <==> x in FsOf(p)
    ensures Find(p, x) >= 0 ==> FsOf(p)[x] == Slots(p)[Find(p, x)].entry
    ensures FreeSlot(p) < 0 <==> |FsOf(p)| == |p.names|
  {
    hide HeadersAgree, MapOf, DistinctPaths;
    TableFinds(p, x);
    SlotTells(Slots(p), x);
    FullTells(Slots(p));
  }

  lemma FoundMayTake(p: Pool, x: Path, y: Path)
    requires Good(p) && Find(p, x) >= 0
    requires y == x || y == [] || (y !in FsOf(p) && Fits(y) && NulFree(y))
    ensures MayTake(p, Find(p, x), y)
  {
    var i := Find(p, x);
    SlotBinds(Slots(p), i);
    PathBound(Slots(p), y);
    assert SlotOk(FileOf(p, i), p.paths[i], p.flags[i]);
  }

  lemma FreeSlotTells(p: Pool, y: Path)
    requires Good(p) && FreeSlot(p) >= 0 && y !in FsOf(p) && Fits(y) && NulFree(y)
    ensures MayTake(p, FreeSlot(p), y) && p.paths[FreeSlot(p)] == []
  {
    PathBound(Slots(p), y);
  }

  lemma LongEnough(p: Pool, i: nat)
    requires HeadersAgree(p) && i < |p.names|
    ensures |FileOf(p, i)| >= SECTOR_SIZE
  {
    assert SlotOk(FileOf(p, i), p.paths[i], p.flags[i]);
  }

  lemma TableIsOk(p: Pool)
    requires Good(p)
    ensures TableOk(Slots(p))
  {
    hide DistinctPaths;
    forall i | 0 <= i < |p.names|
      ensures Fits(Slots(p)[i].path)
    {
      assert SlotOk(FileOf(p, i), p.paths[i], p.flags[i]);
    }
  }

  /** q is what the operation should make of the table of p, and its headers agree with its index. */
  ghost predicate Meets(p: Pool, q: Pool, op: Op)
    requires Sized(p)
  {
    HeadersAgree(q) && Slots(q) == Act(Slots(p), op)
  }

  lemma OpenMeets(p: Pool, path: Path, flags: Word)
    requires HeadersAgree(p) && NulFree(path)
    ensures Meets(p, AfterOpen(p, path, flags), Open(path, flags))
  {
    TableFinds(p, path);
    hide HeadersAgree, SetPath, NulFree, Find, FreeSlot, SlotOf, FirstFree, Given;
    if Find(p, path) < 0 && FreeSlot(p) >= 0 && Fits(path) {
      SetPathGives(p, FreeSlot(p), path, flags);
    }
  }

  lemma RemoveMeets(p: Pool, path: Path)
    requires HeadersAgree(p)
    ensures HeadersAgree(AfterRemove(p, path)) && Slots(AfterRemove(p, path)) == Removed(Slots(p), path)
  {
    TableFinds(p, path);
    hide HeadersAgree, SetPath, Find, FreeSlot, SlotOf, FirstFree, Given;
    if Find(p, path) >= 0 {
      SetPathGives(p, Find(p, path), [], 0);
    }
  }

  lemma RenameMeets(p: Pool, from: Path, to: Path)
    requires HeadersAgree(p) && NulFree(to)
    ensures Meets(p, AfterRename(p, from, to), Rename(from, to))
  {
    TableFinds(p, from);
    hide HeadersAgree, SetPath, NulFree, Find, SlotOf, Given, AfterRemove, Removed;
    RemoveMeets(p, to);
    if Find(p, from) >= 0 && Fits(to) {
      SetPathGives(AfterRemove(p, to), Find(p, from), to, p.flags[Find(p, from)]);
    }
  }

  /** A call that leaves the first sector alone. */
  lemma DataMeets(p: Pool, i: nat, call: Call)
    requires HeadersAgree(p) && i < |p.names|
    requires var file := FileOf(p, i);
             |Do(file, call)| >= SECTOR_SIZE && Do(file, call)[..SECTOR_SIZE] == file[..SECTOR_SIZE]
    ensures var q := AfterData(p, i, call);
            && HeadersAgree(q)
            && Slots(q) == Slots(p)[i := Slot(p.paths[i], Entry(p.flags[i], Data(Do(FileOf(p, i), call))))]
  {
    assert SlotOk(FileOf(p, i), p.paths[i], p.flags[i]);
    hide SlotOk, Data, Do;
    HeaderKeptKeepsSlot(FileOf(p, i), Do(FileOf(p, i), call), p.paths[i], p.flags[i]);
    ReplaceKeepsHeaders(p, i, p.paths[i], p.flags[i], Do(FileOf(p, i), call));
  }

  lemma WriteMeets(p: Pool, i: nat, off: nat, data: Bytes)
    requires HeadersAgree(p)
    ensures Meets(p, AfterData(p, i, Write(SECTOR_SIZE + off, data)), WriteSlot(i, off, data))
  {
    hide SlotOk, Data, Do, WriteAt;
    if i < |p.names| {
      LongEnough(p, i);
      WriteBehindHeader(FileOf(p, i), off, data);
      DataMeets(p, i, Write(SECTOR_SIZE + off, data));
    }
  }

  lemma TruncateMeets(p: Pool, i: nat, size: nat)
    requires HeadersAgree(p)
    ensures Meets(p, AfterData(p, i, Truncate(SECTOR_SIZE + size)), TruncateSlot(i, size))
  {
    hide SlotOk, Data, Do, Resize;
    if i < |p.names| {
      LongEnough(p, i);
      ResizeBehindHeader(FileOf(p, i), size);
      DataMeets(p, i, Truncate(SECTOR_SIZE + size));
    }
  }

  lemma OperationKeepsHeaders(p: Pool, op: Op)
    requires HeadersAgree(p) && CStrings(op)
    ensures Meets(p, After(p, op), op)
  {
    hide HeadersAgree, Meets, AfterOpen, AfterRemove, AfterRename, AfterData;
    match op
    case Open(path, flags) => OpenMeets(p, path, flags);
    case Remove(path) => RemoveIsMet(p, path);
    case Rename(from, to) => RenameMeets(p, from, to);
    case WriteSlot(i, off, data) => WriteMeets(p, i, off, data);
    case TruncateSlot(i, size) => TruncateMeets(p, i, size);
  }

  lemma RemoveIsMet(p: Pool, path: Path)
    requires HeadersAgree(p)
    ensures Meets(p, AfterRemove(p, path), Remove(path))
  {
    hide HeadersAgree, AfterRemove, Removed;
    RemoveMeets(p, path);
  }

  /**
   * Every operation leaves every slot in good order, does to the table of slots
   * what it should, and to the map from path to contents what it means.
   */
  lemma OperationsMeet(p: Pool, op: Op)
    requires Good(p) && CStrings(op)
    ensures Good(After(p, op)) && Slots(After(p, op)) == Act(Slots(p), op)
    ensures FsOf(After(p, op)) == Plain(FsOf(p), |p.names|, Meaning(Slots(p), op))
  {
    hide HeadersAgree, After, Act, TableOk, Plain, Meaning, MapOf;
    TableIsOk(p);
    OperationKeepsHeaders(p, op);
    ActMeans(Slots(p), op);
    TableIsDistinct(Act(Slots(p), op));
    hide DistinctPaths;
    assert HeadersAgree(After(p, op));
  }

  lemma SetPathPlays(p: Pool, i: nat, path: Path, flags: Word)
    requires Sized(p) && i < |p.names| && Fits(path)
    ensures SetPath(p, i, path, flags).files == PlayAll(p.files, On(p.names[i], SetPathCalls(path, flags)))
  {
    PlayAllOn(p.files, p.names[i], SetPathCalls(path, flags));
  }

  /** The files an operation leaves are what its handle calls, made in order, leave. */
  lemma StepsMakeAfter(p: Pool, op: Op)
    requires Sized(p)
    ensures After(p, op).files == PlayAll(p.files, Steps(p, op))
  {
    PlaysNothing(p.files);
    match op
    case Open(path, flags) =>
      if Find(p, path) < 0 && FreeSlot(p) >= 0 && Fits(path) {
        SetPathPlays(p, FreeSlot(p), path, flags);
      }
    case Remove(path) => RemovePlays(p, path);
    case Rename(from, to) => RenamePlays(p, from, to);
    case WriteSlot(i, off, data) => DataPlays(p, i, Write(SECTOR_SIZE + off, data));
    case TruncateSlot(i, size) => DataPlays(p, i, Truncate(SECTOR_SIZE + size));
  }

  lemma RenamePlays(p: Pool, from: Path, to: Path)
    requires Sized(p)
    ensures AfterRename(p, from, to).files == PlayAll(p.files, RenameSteps(p, from, to))
  {
    PlaysNothing(p.files);
    hide SetPathCalls, PlayAll, AfterRemove, RemoveSteps;
    var i := Find(p, from);
    if i >= 0 {
      RemovePlays(p, to);
      if Fits(to) {
        PlayAllOn(AfterRemove(p, to).files, p.names[i], SetPathCalls(to, p.flags[i]));
        PlayAllConcat(p.files, RemoveSteps(p, to), On(p.names[i], SetPathCalls(to, p.flags[i])));
      } else {
        assert RemoveSteps(p, to) + [] == RemoveSteps(p, to);
      }
    }
  }

  lemma PlaysNothing(files: map<Name, Bytes>)
    ensures PlayAll(files, []) == files
  {}

  lemma RemovePlays(p: Pool, path: Path)
    requires Sized(p)
    ensures AfterRemove(p, path).files == PlayAll(p.files, RemoveSteps(p, path))
  {
    if Find(p, path) >= 0 {
      SetPathPlays(p, Find(p, path), [], 0);
    }
  }

  lemma DataPlays(p: Pool, i: nat, call: Call)
    requires Sized(p)
    ensures AfterData(p, i, call).files == PlayAll(p.files, DataSteps(p, i, call))
  {
    PlaysNothing(p.files);
    if i < |p.names| {
      var name := p.names[i];
      PlayAllOn(p.files, name, [call]);
      PlayFront(p.files[name], call, []);
      assert [call] + [] == [call];
    }
  }

  /**
   * Renaming moves a path's flags and contents and touches no other path,
   * unless the new name is empty, which frees the slot, or does not fit, which
   * changes nothing, or is the old one: then the contents survive only if there
   * were none.
   */
  lemma RenameMovesContents(p: Pool, from: Path, to: Path)
    requires Good(p) && from in FsOf(p) && NulFree(to)
    ensures Good(After(p, Rename(from, to)))
    ensures var fs, r := FsOf(p), FsOf(After(p, Rename(from, to)));
            && (to in r && r[to] == fs[from] <==> to != [] && Fits(to) && (from != to || fs[from].data == []))
            && (from in r <==> from == to || !Fits(to))
            && (!Fits(to) ==> r == fs)
            && forall x :: x != from && x != to ==> (x in r <==> x in fs) && (x in fs ==> r[x] == fs[x])
  {
    hide Good, After, FsOf, NulFree;
    BoundFits(p, from);
    BoundFits(p, to);
    OperationsMeet(p, Rename(from, to));
  }

  lemma BoundFits(p: Pool, x: Path)
    requires Good(p)
    ensures x in FsOf(p) ==> x != [] && Fits(x)
  {
    TableIsOk(p);
    PathBound(Slots(p), x);
  }

  // -- histories -----------------------------------------------------------------------

  /** The pool after a whole history of operations. */
  ghost function AfterAll(p: Pool, ops: seq<Op>): (q: Pool)
    requires Sized(p)
    ensures q.names == p.names && |q.paths| == |q.flags| == |p.names| && q.files.Keys == p.files.Keys
    decreases |ops|
  {
    if ops == [] then p else AfterAll(After(p, ops[0]), ops[1..])
  }

  /** Over any history the pool is the table of its slots, and so a plain map for whoever sees only paths. */
  lemma {:induction false} HistoryMeets(p: Pool, ops: seq<Op>)
    requires Good(p) && forall i :: 0 <= i < |ops| ==> CStrings(ops[i])
    ensures Good(AfterAll(p, ops)) && Slots(AfterAll(p, ops)) == ActAll(Slots(p), ops)
    ensures FsOf(AfterAll(p, ops)) == PlainAll(FsOf(p), |p.names|, Meanings(Slots(p), ops))
    decreases |ops|
  {
    if ops != [] {
      OperationsMeet(p, ops[0]);
      HistoryMeets(After(p, ops[0]), ops[1..]);
      assert Meanings(Slots(p), ops)[1..] == Meanings(Slots(After(p, ops[0])), ops[1..]);
    }
  }

  /** In a pool in good order, a swept slot is a free one with no data. */
  lemma SweptMeansEmpty(p: Pool)
    requires HeadersAgree(p)
    ensures Swept(p) <==> forall i :: 0 <= i < |p.names| && p.paths[i] == [] ==> Slots(p)[i].entry.data == []
  {
    forall i | 0 <= i < |p.names|
      ensures SweptFile(FileOf(p, i), p.paths[i]) <==> (p.paths[i] == [] ==> Slots(p)[i].entry.data == [])
    {
      LongEnough(p, i);
    }
  }

  /** An operation leaves something in a free slot only by writing or growing through one. */
  lemma StaysSwept(p: Pool, op: Op)
    requires Good(p) && Swept(p) && CStrings(op)
    ensures Good(After(p, op))
    ensures Swept(After(p, op)) <==> forall i: nat :: i < |p.names| && p.paths[i] == [] ==> !Grows(op, i)
  {
    hide SlotOk, Swept, After, Act, Grows, DistinctPaths, MapOf, Plain, Meaning;
    SweptMeansEmpty(p);
    OperationsMeet(p, op);
    SweptMeansEmpty(After(p, op));
    ActSweeps(Slots(p), op);
  }

  lemma ActSweeps(t: Table, op: Op)
    requires forall i :: 0 <= i < |t| && t[i].path == [] ==> t[i].entry.data == []
    ensures (forall i :: 0 <= i < |t| && Act(t, op)[i].path == [] ==> Act(t, op)[i].entry.data == []) <==>
            forall i: nat :: i < |t| && t[i].path == [] ==> !Grows(op, i)
  {
    if op.WriteSlot? || op.TruncateSlot? {
      if op.slot < |t| {
        var data := LeftBy(op, op.slot, t[op.slot].entry.data);
        assert Act(t, op)[op.slot].entry.data == data;
      }
    }
  }
}
