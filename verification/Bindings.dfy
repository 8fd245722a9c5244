/** A list of slots, each free or holding one path, and the map it stands for. */
module Bindings {
  import opened Words

  /** What a path stands for: the flags it was created with and its contents. */
  datatype Entry = Entry(flags: Word, data: Bytes)

  /** A slot is free when its path is empty. */
  datatype Slot = Slot(path: Path, entry: Entry)

  type Fs = map<Path, Entry>

  ghost predicate DistinctPaths(s: seq<Slot>) {
    forall i, j :: 0 <= i < j < |s| && s[i].path != [] ==> s[i].path != s[j].path
  }

  ghost function MapOf(s: seq<Slot>): Fs
    requires DistinctPaths(s)
  {
    map b | b in s && b.path != [] :: b.path := b.entry
  }

  ghost predicate Binds(fs: Fs, x: Path, e: Entry) { x in fs && fs[x] == e }

  lemma MapOfBinds(s: seq<Slot>, x: Path, e: Entry)
    requires DistinctPaths(s)
    ensures Binds(MapOf(s), x, e) <==> x != [] && Slot(x, e) in s
  {}

  lemma SameBindings(a: Fs, b: Fs)
    requires forall x, e :: Binds(a, x, e) <==> Binds(b, x, e)
    ensures a == b
  {
    forall x | x in a
      ensures x in b && a[x] == b[x]
    {
      assert Binds(a, x, a[x]);
    }
    forall x | x in b
      ensures x in a
    {
      assert Binds(b, x, b[x]);
    }
  }

  /** The map once the slot that held `was` holds `path` instead. */
  ghost function Rebind(fs: Fs, was: Path, path: Path, e: Entry): Fs {
    if path == [] then fs - {was} else (fs - {was})[path := e]
  }

  /** No slot but i has this path. */
  ghost predicate MayBind(s: seq<Slot>, i: nat, path: Path) {
    i < |s| && (path != [] ==> forall j :: 0 <= j < |s| && j != i ==> s[j].path != path)
  }

  lemma UpdateKeepsDistinct(s: seq<Slot>, i: nat, b: Slot)
    requires DistinctPaths(s) && MayBind(s, i, b.path)
    ensures DistinctPaths(s[i := b])
  {}

  lemma UpdateHolds(s: seq<Slot>, i: nat, b: Slot, x: Path, e: Entry)
    requires DistinctPaths(s) && MayBind(s, i, b.path) && x != []
    ensures Slot(x, e) in s[i := b] <==> if x == b.path then e == b.entry else x != s[i].path && Slot(x, e) in s
  {
    var t := s[i := b];
    assert t[i] == b;
    if Slot(x, e) in t {
      var j :| 0 <= j < |t| && t[j] == Slot(x, e);
      assert j == i || s[j] == Slot(x, e);
    }
    if Slot(x, e) in s && x != s[i].path {
      var j :| 0 <= j < |s| && s[j] == Slot(x, e);
      assert t[j] == s[j];
    }
  }

  lemma UpdateBinds(s: seq<Slot>, i: nat, b: Slot, x: Path, e: Entry)
    requires DistinctPaths(s) && MayBind(s, i, b.path) && DistinctPaths(s[i := b])
    ensures Binds(MapOf(s[i := b]), x, e) <==> Binds(Rebind(MapOf(s), s[i].path, b.path, b.entry), x, e)
  {
    MapOfBinds(s[i := b], x, e);
    MapOfBinds(s, x, e);
    hide MapOf, DistinctPaths;
    if x != [] {
      UpdateHolds(s, i, b, x, e);
    }
  }

  /** Changing one slot rebinds one path. */
  lemma UpdateRebinds(s: seq<Slot>, i: nat, b: Slot)
    requires DistinctPaths(s) && MayBind(s, i, b.path)
    ensures DistinctPaths(s[i := b])
    ensures MapOf(s[i := b]) == Rebind(MapOf(s), s[i].path, b.path, b.entry)
  {
    UpdateKeepsDistinct(s, i, b);
    hide MapOf, DistinctPaths, Binds;
    forall x, e
      ensures Binds(MapOf(s[i := b]), x, e) <==> Binds(Rebind(MapOf(s), s[i].path, b.path, b.entry), x, e)
    {
      UpdateBinds(s, i, b, x, e);
    }
    SameBindings(MapOf(s[i := b]), Rebind(MapOf(s), s[i].path, b.path, b.entry));
  }

  /** A used slot is what its path is bound to, and the only one. */
  lemma SlotBinds(s: seq<Slot>, i: nat)
    requires DistinctPaths(s) && i < |s| && s[i].path != []
    ensures s[i].path in MapOf(s) && MapOf(s)[s[i].path] == s[i].entry
    ensures forall j :: 0 <= j < |s| && s[j].path == s[i].path ==> j == i
  {
    MapOfBinds(s, s[i].path, s[i].entry);
  }

  lemma PathBound(s: seq<Slot>, x: Path)
    requires DistinctPaths(s)
    ensures x in MapOf(s) <==> x != [] && exists i :: 0 <= i < |s| && s[i].path == x
  {
    if x != [] {
      if i :| 0 <= i < |s| && s[i].path == x {
        SlotBinds(s, i);
      }
    }
  }

  lemma PrefixDistinct(s: seq<Slot>, b: Slot)
    requires DistinctPaths(s + [b])
    ensures DistinctPaths(s)
    ensures b.path != [] ==> forall i :: 0 <= i < |s| ==> s[i].path != b.path
  {
    var t := s + [b];
    assert t[|s|] == b;
    assert forall i :: 0 <= i < |s| ==> t[i] == s[i];
  }

  lemma AppendHolds(s: seq<Slot>, b: Slot, x: Path, e: Entry)
    requires x != [] && (b.path != [] ==> forall i :: 0 <= i < |s| ==> s[i].path != b.path)
    ensures Slot(x, e) in s + [b] <==> if x == b.path then e == b.entry else Slot(x, e) in s
  {}

  lemma AppendBinds(s: seq<Slot>, b: Slot, x: Path, e: Entry)
    requires DistinctPaths(s + [b]) && DistinctPaths(s)
    ensures Binds(MapOf(s + [b]), x, e) <==>
            Binds(if b.path == [] then MapOf(s) else MapOf(s)[b.path := b.entry], x, e)
  {
    PrefixDistinct(s, b);
    MapOfBinds(s + [b], x, e);
    MapOfBinds(s, x, e);
    hide MapOf, DistinctPaths;
    if x != [] {
      AppendHolds(s, b, x, e);
    }
  }

  function FreeCount(s: seq<Slot>): nat {
    if s == [] then 0 else FreeCount(s[..|s| - 1]) + if s[|s| - 1].path == [] then 1 else 0
  }

  /** Used plus free is the number of slots. */
  lemma {:induction false} UsedPlusFree(s: seq<Slot>)
    requires DistinctPaths(s)
    ensures |MapOf(s)| + FreeCount(s) == |s|
  {
    if s == [] {
      assert MapOf(s) == map[];
    } else {
      var t, b := s[..|s| - 1], s[|s| - 1];
      assert s == t + [b];
      PrefixDistinct(t, b);
      UsedPlusFree(t);
      if b.path != [] {
        NewPath(t, b);
      }
      hide MapOf, DistinctPaths, Binds;
      var want := if b.path == [] then MapOf(t) else MapOf(t)[b.path := b.entry];
      forall x, e
        ensures Binds(MapOf(s), x, e) <==> Binds(want, x, e)
      {
        AppendBinds(t, b, x, e);
      }
      SameBindings(MapOf(s), want);
    }
  }

  lemma NewPath(s: seq<Slot>, b: Slot)
    requires DistinctPaths(s) && DistinctPaths(s + [b]) && b.path != []
    ensures b.path !in MapOf(s)
  {
    PathBound(s, b.path);
    PrefixDistinct(s, b);
  }
}
