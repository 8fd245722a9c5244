/**
 * The pool with its files, headers and index taken away: a table of slots, each
 * free or holding one path, and what every operation does to it. A free slot may
 * have data left in it, because a file that is still open on a deleted path
 * writes through its slot.
 */
module SlotTables {
  import opened Words
  import opened Sequences
  import opened Header
  import opened Bindings

  type Table = seq<Slot>

  datatype Op =
    | Open(path: Path, flags: Word)
    | Remove(path: Path)
    | Rename(from: Path, to: Path)
    | WriteSlot(slot: nat, off: nat, data: Bytes)
    | TruncateSlot(slot: nat, size: nat)

  /** The slot byPath has for a path: never one for the empty path. */
  function Holder(paths: seq<Path>, x: Path): (i: int)
    ensures -1 <= i < |paths|
    ensures i >= 0 ==> x != [] && paths[i] == x
    ensures i < 0 && x != [] ==> x !in paths
  {
    if x == [] then -1 else IndexOf(paths, x, 0)
  }

  function Paths(t: Table): (p: seq<Path>)
    ensures |p| == |t| && forall i :: 0 <= i < |t| ==> p[i] == t[i].path
  {
    seq(|t|, i requires 0 <= i < |t| => t[i].path)
  }

  function SlotOf(t: Table, x: Path): int { Holder(Paths(t), x) }

  function FirstFree(t: Table): int { IndexOf(Paths(t), [], 0) }

  const FREED := Slot([], Entry(0, []))

  /** #setPath on slot i: the data stay, unless the slot is freed. */
  function Given(t: Table, i: nat, path: Path, flags: Word): Table
    requires i < |t|
  {
    t[i := Slot(path, Entry(flags, if path == [] then [] else t[i].entry.data))]
  }

  function Removed(t: Table, path: Path): (u: Table)
    ensures |u| == |t|
  {
    if SlotOf(t, path) < 0 then t else Given(t, SlotOf(t, path), [], 0)
  }

  function Act(t: Table, op: Op): (u: Table)
    ensures |u| == |t|
  {
    match op
    case Open(path, flags) =>
      if SlotOf(t, path) >= 0 || FirstFree(t) < 0 || !Fits(path) then t else Given(t, FirstFree(t), path, flags)
    case Remove(path) => Removed(t, path)
    case Rename(from, to) =>
      var i := SlotOf(t, from);
      if i < 0 then t
      // remove(to) comes first, and a name that is too long is refused after it
      else if Fits(to) then Given(Removed(t, to), i, to, t[i].entry.flags)
      else Removed(t, to)
    case WriteSlot(i, off, data) =>
      if i >= |t| then t else t[i := t[i].(entry := t[i].entry.(data := WriteAt(t[i].entry.data, off, data)))]
    case TruncateSlot(i, size) =>
      if i >= |t| then t else t[i := t[i].(entry := t[i].entry.(data := Resize(t[i].entry.data, size)))]
  }

  /** The paths an operation names are C strings. */
  predicate CStrings(op: Op) {
    match op
    case Open(path, _) => NulFree(path)
    case Rename(_, to) => NulFree(to)
    case _ => true
  }

  /** No path in two slots, and none that would not fit. */
  ghost predicate TableOk(t: Table) {
    DistinctPaths(t) && forall i :: 0 <= i < |t| ==> Fits(t[i].path)
  }

  /** A data call through a slot changes the bytes it is meant to and nothing else of the table. */
  lemma DataCallsWrite(t: Table, i: nat, off: nat, data: Bytes, size: nat)
    requires i < |t|
    ensures var u := Act(t, WriteSlot(i, off, data));
            && Overwritten(t[i].entry.data, u[i].entry.data, off, data)
            && forall j :: 0 <= j < |t| ==>
                 && u[j].path == t[j].path && u[j].entry.flags == t[j].entry.flags
                 && (j != i ==> u[j].entry.data == t[j].entry.data)
    ensures var u := Act(t, TruncateSlot(i, size));
            && Recut(t[i].entry.data, u[i].entry.data, size)
            && forall j :: 0 <= j < |t| ==>
                 && u[j].path == t[j].path && u[j].entry.flags == t[j].entry.flags
                 && (j != i ==> u[j].entry.data == t[j].entry.data)
  {
    hide WriteAt, Resize, Overwritten, Recut;
    WrittenBytes(t[i].entry.data, off, data);
    ResizedBytes(t[i].entry.data, size);
  }

  // -- the table as a map from path to contents -----------------------------------------

  /** What an operation means to somebody who sees only paths. */
  datatype MapOp =
    | Create(path: Path, flags: Word, data: Bytes)
    | Drop(path: Path)
    | Move(from: Path, to: Path)
    | Put(path: Path, off: nat, data: Bytes)
    | Cut(path: Path, size: nat)
    | Nothing

  /** A plain map with room for n paths. */
  ghost function Plain(fs: Fs, n: nat, m: MapOp): Fs {
    match m
    case Create(path, flags, data) =>
      if path in fs || path == [] || |fs| == n || !Fits(path) then fs else fs[path := Entry(flags, data)]
    case Drop(path) => fs - {path}
    case Move(from, to) =>
      if from !in fs || !Fits(to) then fs
      else if to == [] then fs - {from}
      // remove(to) has emptied the file by the time it gets its name back
      else if from == to then fs[to := Entry(fs[from].flags, [])]
      else (fs - {from, to})[to := fs[from]]
    case Put(path, off, data) =>
      if path !in fs then fs else fs[path := Entry(fs[path].flags, WriteAt(fs[path].data, off, data))]
    case Cut(path, size) =>
      if path !in fs then fs else fs[path := Entry(fs[path].flags, Resize(fs[path].data, size))]
    case Nothing => fs
  }

  /** What is left in the slot that the next new path gets. */
  function Leftover(t: Table): Bytes { if FirstFree(t) < 0 then [] else t[FirstFree(t)].entry.data }

  function Meaning(t: Table, op: Op): MapOp {
    match op
    case Open(path, flags) => Create(path, flags, Leftover(t))
    case Remove(path) => Drop(path)
    case Rename(from, to) => Move(from, to)
    case WriteSlot(i, off, data) => if i >= |t| || t[i].path == [] then Nothing else Put(t[i].path, off, data)
    case TruncateSlot(i, size) => if i >= |t| || t[i].path == [] then Nothing else Cut(t[i].path, size)
  }

  /** SlotOf and FirstFree answer for the map. */
  lemma SlotTells(t: Table, x: Path)
    requires DistinctPaths(t)
    ensures SlotOf(t, x) >= 0 <==> x in MapOf(t)
    ensures -1 <= SlotOf(t, x) < |t|
    ensures SlotOf(t, x) >= 0 ==> t[SlotOf(t, x)].path == x != [] && MapOf(t)[x] == t[SlotOf(t, x)].entry
    ensures SlotOf(t, x) >= 0 ==> forall i :: 0 <= i < |t| && t[i].path == x ==> i == SlotOf(t, x)
  {
    PathBound(t, x);
    if SlotOf(t, x) >= 0 {
      SlotBinds(t, SlotOf(t, x));
    }
  }

  /** No slot is free exactly when the map has as many paths as there are slots. */
  lemma FullTells(t: Table)
    requires DistinctPaths(t)
    ensures FirstFree(t) < 0 <==> |MapOf(t)| == |t|
  {
    UsedPlusFree(t);
    FreeCountTells(t);
    hide MapOf, DistinctPaths, FreeCount;
    if FirstFree(t) >= 0 {
      assert t[FirstFree(t)].path == [];
    } else {
      assert forall i :: 0 <= i < |t| ==> Paths(t)[i] != [];
    }
  }

  lemma {:induction false} FreeCountTells(s: seq<Slot>)
    ensures FreeCount(s) == 0 <==> forall i :: 0 <= i < |s| ==> s[i].path != []
  {
    if s != [] {
      FreeCountTells(s[..|s| - 1]);
    }
  }

  lemma GivenRebinds(t: Table, i: nat, path: Path, flags: Word)
    requires TableOk(t) && MayBind(t, i, path) && Fits(path)
    ensures var e := Entry(flags, if path == [] then [] else t[i].entry.data);
            TableOk(Given(t, i, path, flags)) && MapOf(Given(t, i, path, flags)) == Rebind(MapOf(t), t[i].path, path, e)
  {
    UpdateRebinds(t, i, Slot(path, Entry(flags, if path == [] then [] else t[i].entry.data)));
  }

  lemma RemovedDrops(t: Table, path: Path)
    requires TableOk(t)
    ensures TableOk(Removed(t, path)) && MapOf(Removed(t, path)) == MapOf(t) - {path}
    ensures forall i :: 0 <= i < |t| ==>
              Removed(t, path)[i] == if t[i].path == path != [] then FREED else t[i]
  {
    SlotTells(t, path);
    if SlotOf(t, path) >= 0 {
      GivenRebinds(t, SlotOf(t, path), [], 0);
    }
  }

  lemma NothingAtEmpty(t: Table)
    requires DistinctPaths(t)
    ensures [] !in MapOf(t)
  {
    PathBound(t, []);
  }

  lemma OpenMeans(t: Table, path: Path, flags: Word)
    requires TableOk(t)
    ensures Acts(t, Open(path, flags))
  {
    hide MapOf, DistinctPaths, Paths, IndexOf, Holder;
    SlotTells(t, path);
    FullTells(t);
    NothingAtEmpty(t);
    PathBound(t, path);
    if SlotOf(t, path) < 0 && FirstFree(t) >= 0 && Fits(path) {
      GivenRebinds(t, FirstFree(t), path, flags);
    }
  }

  lemma RemoveMeans(t: Table, path: Path)
    requires TableOk(t)
    ensures Acts(t, Remove(path))
  {
    RemovedDrops(t, path);
  }

  lemma RenameMeans(t: Table, from: Path, to: Path)
    requires TableOk(t)
    ensures Acts(t, Rename(from, to))
  {
    hide MapOf, DistinctPaths, Removed, SlotOf, FirstFree, Given, Plain;
    SlotTells(t, from);
    RemovedDrops(t, to);
    if SlotOf(t, from) < 0 {
      StaysPut(MapOf(t), |t|, from, to);
    } else if Fits(to) {
      RenameInTwo(t, from, to);
    } else {
      LongPathsAbsent(t, to);
      StaysPut(MapOf(t), |t|, from, to);
    }
  }

  /** Slot by slot: the slot of `from` gets the name, that of `to` is freed, and no other changes. */
  lemma RenamedSlots(t: Table, from: Path, to: Path)
    requires TableOk(t) && SlotOf(t, from) >= 0 && Fits(to)
    ensures forall i :: 0 <= i < |t| ==>
              Act(t, Rename(from, to))[i] ==
              if t[i].path == from
              then Slot(to, Entry(t[i].entry.flags, if to == [] || from == to then [] else t[i].entry.data))
              else if t[i].path == to != [] then FREED else t[i]
  {
    hide MapOf, DistinctPaths, Removed, SlotOf, FirstFree;
    SlotTells(t, from);
    RemovedDrops(t, to);
  }

  lemma StaysPut(fs: Fs, n: nat, from: Path, to: Path)
    ensures from !in fs || !Fits(to) ==> Plain(fs, n, Move(from, to)) == fs
  {}

  lemma RenameInTwo(t: Table, from: Path, to: Path)
    requires TableOk(t) && SlotOf(t, from) >= 0 && Fits(to)
    ensures SlotOf(t, from) < |t|
    ensures var u := Given(Removed(t, to), SlotOf(t, from), to, t[SlotOf(t, from)].entry.flags);
            TableOk(u) && MapOf(u) == Plain(MapOf(t), |t|, Move(from, to))
  {
    hide MapOf, DistinctPaths, Removed, SlotOf, FirstFree, Plain, Given;
    SlotTells(t, from);
    RemovedDrops(t, to);
    NothingAtEmpty(t);
    var i, u := SlotOf(t, from), Removed(t, to);
    PathBound(u, to);
    GivenRebinds(u, i, to, t[i].entry.flags);
    MoveMaps(MapOf(t), |t|, from, to);
  }

  lemma LongPathsAbsent(t: Table, x: Path)
    requires TableOk(t) && !Fits(x)
    ensures SlotOf(t, x) < 0 && Removed(t, x) == t
  {}

  /** A rename as the two header updates it is. */
  lemma MoveMaps(fs: Fs, n: nat, from: Path, to: Path)
    requires from in fs && [] !in fs && Fits(to)
    ensures var was := if from == to then [] else from;
            var e := Entry(fs[from].flags, if to == [] || from == to then [] else fs[from].data);
            Plain(fs, n, Move(from, to)) == Rebind(fs - {to}, was, to, e)
  {
    assert fs - {to} - {from} == fs - {from, to};
    assert fs - {[]} == fs && fs - {to} - {[]} == fs - {to};
    if from == to {
      assert (fs - {to})[to := Entry(fs[from].flags, [])] == fs[to := Entry(fs[from].flags, [])];
    }
  }

  lemma DataMeans(t: Table, i: nat, data: Bytes)
    requires TableOk(t) && i < |t|
    ensures var u := t[i := t[i].(entry := t[i].entry.(data := data))];
            && TableOk(u)
            && MapOf(u) == if t[i].path == [] then MapOf(t)
                           else MapOf(t)[t[i].path := Entry(t[i].entry.flags, data)]
    ensures t[i].path != [] ==> t[i].path in MapOf(t) && MapOf(t)[t[i].path] == t[i].entry
  {
    var b := t[i].(entry := t[i].entry.(data := data));
    if t[i].path != [] {
      SlotBinds(t, i);
    }
    NothingAtEmpty(t);
    UpdateRebinds(t, i, b);
  }

  lemma WriteMeans(t: Table, i: nat, off: nat, data: Bytes)
    requires TableOk(t)
    ensures Acts(t, WriteSlot(i, off, data))
  {
    hide TableOk, MapOf, WriteAt;
    if i < |t| {
      DataMeans(t, i, WriteAt(t[i].entry.data, off, data));
    }
  }

  lemma TruncateMeans(t: Table, i: nat, size: nat)
    requires TableOk(t)
    ensures Acts(t, TruncateSlot(i, size))
  {
    hide TableOk, MapOf, Resize;
    if i < |t| {
      DataMeans(t, i, Resize(t[i].entry.data, size));
    }
  }

  /** The operation keeps the table in order and does to the map what it means. */
  ghost predicate Acts(t: Table, op: Op)
    requires TableOk(t)
  {
    TableOk(Act(t, op)) && MapOf(Act(t, op)) == Plain(MapOf(t), |t|, Meaning(t, op))
  }

  /** Every operation does to the map what it means. */
  lemma ActMeans(t: Table, op: Op)
    requires TableOk(t)
    ensures TableOk(Act(t, op)) && MapOf(Act(t, op)) == Plain(MapOf(t), |t|, Meaning(t, op))
  {
    hide TableOk, Act, Plain, Meaning, MapOf;
    match op
    case Open(path, flags) => OpenMeans(t, path, flags);
    case Remove(path) => RemoveMeans(t, path);
    case Rename(from, to) => RenameMeans(t, from, to);
    case WriteSlot(i, off, data) => WriteMeans(t, i, off, data);
    case TruncateSlot(i, size) => TruncateMeans(t, i, size);
  }

  // -- histories -----------------------------------------------------------------------------

  function ActAll(t: Table, ops: seq<Op>): (u: Table)
    ensures |u| == |t|
    decreases |ops|
  {
    if ops == [] then t else ActAll(Act(t, ops[0]), ops[1..])
  }

  ghost function PlainAll(fs: Fs, n: nat, ms: seq<MapOp>): Fs
    decreases |ms|
  {
    if ms == [] then fs else PlainAll(Plain(fs, n, ms[0]), n, ms[1..])
  }

  function Meanings(t: Table, ops: seq<Op>): seq<MapOp>
    decreases |ops|
  {
    if ops == [] then [] else [Meaning(t, ops[0])] + Meanings(Act(t, ops[0]), ops[1..])
  }

  /** Over any history the table is a plain map with room for as many paths as it has slots. */
  lemma {:induction false} HistoryMeans(t: Table, ops: seq<Op>)
    requires TableOk(t)
    ensures TableOk(ActAll(t, ops))
    ensures MapOf(ActAll(t, ops)) == PlainAll(MapOf(t), |t|, Meanings(t, ops))
    decreases |ops|
  {
    if ops != [] {
      ActMeans(t, ops[0]);
      HistoryMeans(Act(t, ops[0]), ops[1..]);
      assert Meanings(t, ops)[1..] == Meanings(Act(t, ops[0]), ops[1..]);
    }
  }

  // -- what a new path finds in its slot --------------------------------------------------------

  /** The operation writes a header to slot i. */
  predicate Rewrites(t: Table, op: Op, i: nat) {
    match op
    case Open(path, _) => SlotOf(t, path) < 0 && FirstFree(t) == i && Fits(path)
    case Remove(path) => SlotOf(t, path) == i
    case Rename(from, to) => SlotOf(t, from) >= 0 && (SlotOf(t, to) == i || (SlotOf(t, from) == i && Fits(to)))
    case _ => false
  }

  /** ... and leaves it free. */
  predicate Frees(t: Table, op: Op, i: nat) {
    Rewrites(t, op, i) && i < |t| && Act(t, op)[i].path == []
  }

  lemma FreedIsEmpty(t: Table, op: Op, i: nat)
    requires Frees(t, op, i)
    ensures Act(t, op)[i].path == [] && Act(t, op)[i].entry.data == []
  {}

  /** The data of slot i after the writes and truncates of a history that go through it. */
  function Left(ops: seq<Op>, i: nat, data: Bytes): Bytes
    decreases |ops|
  {
    if ops == [] then data else Left(ops[1..], i, LeftBy(ops[0], i, data))
  }

  function LeftBy(op: Op, i: nat, data: Bytes): Bytes {
    match op
    case WriteSlot(slot, off, bytes) => if slot == i then WriteAt(data, off, bytes) else data
    case TruncateSlot(slot, size) => if slot == i then Resize(data, size) else data
    case _ => data
  }

  /** No operation of the history writes a header to slot i. */
  predicate Unwritten(t: Table, ops: seq<Op>, i: nat)
    decreases |ops|
  {
    ops == [] || (!Rewrites(t, ops[0], i) && Unwritten(Act(t, ops[0]), ops[1..], i))
  }

  lemma ActUnwritten(t: Table, op: Op, i: nat)
    requires i < |t| && !Rewrites(t, op, i)
    ensures Act(t, op)[i] == t[i].(entry := t[i].entry.(data := LeftBy(op, i, t[i].entry.data)))
  {}

  /** A slot whose header is not written keeps its path and flags, and its data are what went through it. */
  lemma {:induction false} SlotUnwritten(t: Table, ops: seq<Op>, i: nat)
    requires i < |t| && Unwritten(t, ops, i)
    ensures ActAll(t, ops)[i] == t[i].(entry := t[i].entry.(data := Left(ops, i, t[i].entry.data)))
    decreases |ops|
  {
    if ops != [] {
      ActUnwritten(t, ops[0], i);
      SlotUnwritten(Act(t, ops[0]), ops[1..], i);
    }
  }

  /** The operation leaves bytes in slot i whatever was there before. */
  predicate Grows(op: Op, i: nat) {
    match op
    case WriteSlot(slot, off, data) => slot == i && off + |data| > 0
    case TruncateSlot(slot, size) => slot == i && size > 0
    case _ => false
  }

  /** A write or growing truncate of slot i, not undone by a truncate to nothing. */
  predicate Grown(ops: seq<Op>, i: nat) {
    exists k :: 0 <= k < |ops| && Grows(ops[k], i) && forall j :: k < j < |ops| ==> ops[j] != TruncateSlot(i, 0)
  }

  lemma {:induction false} LeftTells(ops: seq<Op>, i: nat, data: Bytes)
    ensures Left(ops, i, data) == [] <==>
            !Grown(ops, i) && (data == [] || exists j :: 0 <= j < |ops| && ops[j] == TruncateSlot(i, 0))
    decreases |ops|
  {
    if ops != [] {
      var rest := ops[1..];
      LeftTells(rest, i, LeftBy(ops[0], i, data));
    }
  }

  /** Writing through a free slot changes what no path is bound to. */
  lemma StrayChangesNoPath(t: Table, op: Op)
    requires TableOk(t) && (op.WriteSlot? || op.TruncateSlot?)
    requires op.slot < |t| ==> t[op.slot].path == []
    ensures TableOk(Act(t, op)) && MapOf(Act(t, op)) == MapOf(t)
  {
    ActMeans(t, op);
  }

  /** open binds a new path to what the first free slot has left, and a plain map would bind it to nothing. */
  lemma OpenFindsLeftover(t: Table, path: Path, flags: Word)
    requires TableOk(t) && path !in MapOf(t) && path != [] && Fits(path) && FirstFree(t) >= 0
    ensures var fs := MapOf(t);
            && TableOk(Act(t, Open(path, flags)))
            && MapOf(Act(t, Open(path, flags))) == fs[path := Entry(flags, Leftover(t))]
            && (MapOf(Act(t, Open(path, flags))) == Plain(fs, |t|, Create(path, flags, [])) <==> Leftover(t) == [])
  {
    hide TableOk, Act, MapOf, FirstFree;
    ActMeans(t, Open(path, flags));
    TableIsDistinct(t);
    FullTells(t);
    var fs := MapOf(t);
    var bound: Fs := fs[path := Entry(flags, Leftover(t))];
    assert bound[path].data == Leftover(t);
  }

  lemma TableIsDistinct(t: Table)
    requires TableOk(t)
    ensures DistinctPaths(t)
  {}

  /**
   * A slot that is free with nothing in it, as #setPath and init leave it, and a
   * history that does not write its header: a path then created in it is bound
   * to what the history wrote through the slot, which is nothing exactly when
   * every growing write or truncate was undone by a truncate to nothing.
   */
  lemma CreatedPath(t: Table, since: seq<Op>, i: nat, path: Path, flags: Word)
    requires TableOk(t) && i < |t| && t[i].path == [] && t[i].entry.data == [] && Unwritten(t, since, i)
    requires TableOk(ActAll(t, since))
    requires var u := ActAll(t, since);
             path !in MapOf(u) && path != [] && Fits(path) && FirstFree(u) == i
    ensures var fs := MapOf(Act(ActAll(t, since), Open(path, flags)));
            && path in fs && fs[path] == Entry(flags, Left(since, i, []))
            && (fs[path].data == [] <==> !Grown(since, i))
  {
    SlotUnwritten(t, since, i);
    LeftTells(since, i, []);
    hide TableOk, Act, ActAll, MapOf, Left, Grown;
    OpenFindsLeftover(ActAll(t, since), path, flags);
  }

  /**
   * In any history: some operation frees slot i, no later one writes its header,
   * and then a path is created in it. The path is empty exactly when the slot has
   * not been grown since it was freed.
   */
  lemma EmptyUnlessGrown(t: Table, before: seq<Op>, free: Op, since: seq<Op>, i: nat, path: Path, flags: Word)
    requires TableOk(t) && Frees(ActAll(t, before), free, i)
    requires Unwritten(Act(ActAll(t, before), free), since, i)
    requires TableOk(ActAll(Act(ActAll(t, before), free), since))
    requires var v := ActAll(Act(ActAll(t, before), free), since);
             path !in MapOf(v) && path != [] && Fits(path) && FirstFree(v) == i
    ensures var v := ActAll(Act(ActAll(t, before), free), since);
            var fs := MapOf(Act(v, Open(path, flags)));
            path in fs && (fs[path].data == [] <==> !Grown(since, i))
  {
    var u := Act(ActAll(t, before), free);
    HistoryMeans(t, before);
    FreedIsEmpty(ActAll(t, before), free, i);
    hide TableOk, Act, ActAll, MapOf, Grown, Unwritten, FirstFree;
    ActMeans(ActAll(t, before), free);
    CreatedPath(u, since, i, path, flags);
  }

  /** A file deleted while open, written, and its slot given to a new path: the bytes come back under that path. */
  lemma StrayWriteComesBack(t: Table, i: nat, off: nat, data: Bytes, path: Path, flags: Word)
    requires TableOk(t) && i < |t| && t[i].path == [] && t[i].entry.data == [] && FirstFree(t) == i
    requires path !in MapOf(t) && path != [] && Fits(path)
    ensures var u := Act(t, WriteSlot(i, off, data));
            && TableOk(u) && MapOf(u) == MapOf(t)
            && MapOf(Act(u, Open(path, flags))) == MapOf(t)[path := Entry(flags, WriteAt([], off, data))]
  {
    var u := Act(t, WriteSlot(i, off, data));
    StrayChangesNoPath(t, WriteSlot(i, off, data));
    assert Paths(u) == Paths(t);
    hide WriteAt;
    OpenFindsLeftover(u, path, flags);
  }
}
