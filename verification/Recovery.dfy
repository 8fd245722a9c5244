/**
 * What OpfsPool.init makes of a directory: after a clean stop, after a stop
 * between any two handle calls of an operation, and after a stop inside init
 * itself, whatever order the directory is enumerated in.
 */
module Recovery {
  import opened Words
  import opened Sequences
  import opened Header
  import opened Bindings
  import opened SlotTables
  import opened PoolSpec

  /** `order` lists every file of the directory once, and `created` names that are not there yet. */
  ghost predicate Mountable(files: map<Name, Bytes>, order: seq<Name>, created: seq<Name>) {
    Distinct(order + created) && files.Keys == (set n | n in order)
  }

  /** A file init creates: adopted empty, then given the empty path once more. */
  function NewFileCalls(): seq<Call> { Discard().calls + SetPathCalls([], 0) }

  function NewFile(): Bytes { Play([], NewFileCalls()) }

  function PathIn(files: map<Name, Bytes>, n: Name): Path { if n in files then Read(files[n]).path else [] }

  function FlagsIn(files: map<Name, Bytes>, n: Name): Word { if n in files then Read(files[n]).flags else 0 }

  function FileIn(files: map<Name, Bytes>, n: Name): Bytes { if n in files then Settled(files[n]) else NewFile() }

  function PathsIn(files: map<Name, Bytes>, names: seq<Name>): (s: seq<Path>)
    ensures |s| == |names| && forall i :: 0 <= i < |s| ==> s[i] == PathIn(files, names[i])
  {
    seq(|names|, i requires 0 <= i < |names| => PathIn(files, names[i]))
  }

  function AllFlagsIn(files: map<Name, Bytes>, names: seq<Name>): (s: seq<Word>)
    ensures |s| == |names| && forall i :: 0 <= i < |s| ==> s[i] == FlagsIn(files, names[i])
  {
    seq(|names|, i requires 0 <= i < |names| => FlagsIn(files, names[i]))
  }

  function FilesIn(files: map<Name, Bytes>, names: seq<Name>): (m: map<Name, Bytes>)
    ensures m.Keys == (set n | n in names) && forall n :: n in names ==> m[n] == FileIn(files, n)
  {
    map n | n in names :: FileIn(files, n)
  }

  /** The pool init builds, and the files it leaves. */
  ghost function Reload(files: map<Name, Bytes>, order: seq<Name>, created: seq<Name>): (p: Pool)
    requires Mountable(files, order, created)
    ensures Sized(p) && p.names == order + created
    ensures forall i :: 0 <= i < |p.names| ==>
              p.paths[i] == PathIn(files, p.names[i]) && p.flags[i] == FlagsIn(files, p.names[i])
              && FileOf(p, i) == FileIn(files, p.names[i])
  {
    var names := order + created;
    Pool(names, PathsIn(files, names), AllFlagsIn(files, names), FilesIn(files, names))
  }

  lemma NewFileIsFree()
    ensures SlotOk(NewFile(), [], 0) && SweptFile(NewFile(), [])
  {
    var one := Play([], Discard().calls);
    DiscardSettles([]);
    SetPathSettles(one, [], 0);
    PlayConcat([], Discard().calls, SetPathCalls([], 0));
  }

  lemma NewFileSteps()
    ensures Read([]) == Discard() && Discard().path == [] && Discard().flags == 0
    ensures NewFile() == Play(Settled([]), SetPathCalls([], 0))
  {
    PlayConcat([], Discard().calls, SetPathCalls([], 0));
  }

  /** Creating one more file. */
  lemma OneMoreCreated(files: map<Name, Bytes>, names: seq<Name>, name: Name)
    requires name !in files && name !in names
    ensures PathsIn(files, names + [name]) == PathsIn(files, names) + [[]]
    ensures AllFlagsIn(files, names + [name]) == AllFlagsIn(files, names) + [0]
    ensures FilesIn(files, names + [name]) == FilesIn(files, names)[name := NewFile()]
  {
    hide Read, NewFile, Settled;
  }

  lemma DistinctParts(order: seq<Name>, created: seq<Name>)
    requires Distinct(order + created)
    ensures Distinct(order)
    ensures forall i :: 0 <= i < |created| ==> created[i] !in order && created[i] !in created[..i]
  {
    var all := order + created;
    assert forall i :: 0 <= i < |order| ==> all[i] == order[i];
    assert forall i :: 0 <= i < |created| ==> all[|order| + i] == created[i];
  }

  lemma {:induction false} PlayConcat(file: Bytes, a: seq<Call>, b: seq<Call>)
    ensures Play(file, a + b) == Play(Play(file, a), b)
    decreases |a|
  {
    if a == [] {
      assert a + b == b;
    } else {
      assert (a + b)[1..] == a[1..] + b;
      PlayConcat(Do(file, a[0]), a[1..], b);
    }
  }

  // -- pools that agree name by name ---------------------------------------------

  /** b holds under each name what a holds there, and nothing more. */
  ghost predicate SameByName(a: Pool, b: Pool) {
    && Sized(a) && Sized(b)
    && (forall i, j :: 0 <= i < |a.names| && 0 <= j < |b.names| && a.names[i] == b.names[j] ==>
          Slots(a)[i] == Slots(b)[j] || a.paths[i] == b.paths[j] == [])
    && (forall i :: 0 <= i < |a.names| && a.paths[i] != [] ==> a.names[i] in b.names)
    && (forall j :: 0 <= j < |b.names| && b.paths[j] != [] ==> b.names[j] in a.names)
  }

  lemma SameHolds(a: Pool, b: Pool, s: Slot)
    requires SameByName(a, b) && s.path != [] && s in Slots(a)
    ensures s in Slots(b)
  {
    var i :| 0 <= i < |Slots(a)| && Slots(a)[i] == s;
    assert a.paths[i] != [];
    var j :| 0 <= j < |b.names| && b.names[j] == a.names[i];
    assert Slots(b)[j] == s;
  }

  lemma SameDistinct(a: Pool, b: Pool)
    requires SameByName(a, b) && Shaped(a)
    ensures Shaped(b)
  {
    forall j, k | 0 <= j < k < |b.names| && Slots(b)[j].path != []
      ensures Slots(b)[j].path != Slots(b)[k].path
    {
      if b.paths[k] != [] {
        assert b.paths[j] != [];
        var i :| 0 <= i < |a.names| && a.names[i] == b.names[j];
        var l :| 0 <= l < |a.names| && a.names[l] == b.names[k];
        assert i != l;
        assert Slots(a)[i] == Slots(b)[j] && Slots(a)[l] == Slots(b)[k];
      }
    }
  }

  lemma SameMap(a: Pool, b: Pool)
    requires SameByName(a, b) && SameByName(b, a) && Shaped(a) && Shaped(b)
    ensures FsOf(a) == FsOf(b)
  {
    forall x, e
      ensures Binds(FsOf(a), x, e) <==> Binds(FsOf(b), x, e)
    {
      MapOfBinds(Slots(a), x, e);
      MapOfBinds(Slots(b), x, e);
      hide MapOf, SameByName, DistinctPaths;
      if x != [] {
        if Slot(x, e) in Slots(a) {
          SameHolds(a, b, Slot(x, e));
        }
        if Slot(x, e) in Slots(b) {
          SameHolds(b, a, Slot(x, e));
        }
      }
    }
    SameBindings(FsOf(a), FsOf(b));
  }

  // -- which slots survive --------------------------------------------------------

  /** What persists has a path that TextDecoder gives back as it was encoded. */
  ghost predicate NoBoms(p: Pool)
    requires |p.flags| == |p.paths|
  {
    forall i :: 0 <= i < |p.paths| && Persists(p.flags[i]) ==> !HasBom(p.paths[i])
  }

  /** No file whose header #readPath accepts has a path that TextDecoder would change. */
  ghost predicate Decodes(p: Pool)
    requires Bearing(p)
  {
    forall i :: 0 <= i < |p.names| && Accepted(FileOf(p, i), p.paths[i], p.flags[i]) ==> !HasBom(p.paths[i])
  }

  /** In good order, every free slot empty, and fit to be started again. */
  ghost predicate Ready(p: Pool) { Good(p) && Swept(p) && NoBoms(p) }

  function Persistent(fs: Fs): Fs {
    map x | x in fs && Persists(fs[x].flags) :: fs[x]
  }

  predicate Survives(p: Pool, i: nat)
    requires i < |p.names| == |p.paths| && p.names[i] in p.files
  {
    p.paths[i] != [] && Read(FileOf(p, i)).path == p.paths[i]
  }

  /** The files of p read again, in the order the pool has them. */
  ghost function Again(p: Pool): Pool
    requires Sized(p)
  {
    assert p.names + [] == p.names;
    Reload(p.files, p.names, [])
  }

  /** A file that bears a path settles as that very slot or as a free and empty one. */
  lemma AgainSlot(p: Pool, i: nat)
    requires Bearing(p) && Decodes(p) && i < |p.names|
    ensures var q := Again(p);
            && q.names == p.names
            && SlotOk(FileOf(q, i), q.paths[i], q.flags[i]) && SweptFile(FileOf(q, i), q.paths[i])
            && if Survives(p, i)
               then && Slots(q)[i] == Slots(p)[i] && SlotOk(FileOf(p, i), p.paths[i], p.flags[i])
                    && Persists(p.flags[i]) && !HasBom(p.paths[i])
               else q.paths[i] == []
    ensures Survives(p, i) <==> Accepted(FileOf(p, i), p.paths[i], p.flags[i])
    ensures SlotOk(FileOf(p, i), p.paths[i], p.flags[i]) && p.paths[i] != [] ==>
              (Survives(p, i) <==> Persists(p.flags[i]))
  {
    assert p.names + [] == p.names;
    assert Bears(FileOf(p, i), p.paths[i], p.flags[i]);
    BearerSettles(FileOf(p, i), p.paths[i], p.flags[i]);
  }

  lemma AgainIsReady(p: Pool)
    requires Bearing(p) && Decodes(p)
    ensures Ready(Again(p))
  {
    var q := Again(p);
    forall i | 0 <= i < |p.names|
      ensures SlotOk(FileOf(q, i), q.paths[i], q.flags[i]) && SweptFile(FileOf(q, i), q.paths[i])
      ensures q.paths[i] == [] || (q.paths[i] == p.paths[i] && !HasBom(q.paths[i]))
    {
      AgainSlot(p, i);
    }
    hide SlotOk, SweptFile, Bears, Persists, HasBom, DistinctPaths;
    FewerPaths(p, q);
  }

  /** Leaving slots free brings no path twice. */
  lemma FewerPaths(p: Pool, q: Pool)
    requires Shaped(p) && Sized(q) && |q.names| == |p.names|
    requires forall i :: 0 <= i < |p.names| ==> q.paths[i] == [] || q.paths[i] == p.paths[i]
    ensures Shaped(q)
  {
    forall i, j | 0 <= i < j < |p.names| && Slots(q)[i].path != []
      ensures Slots(q)[i].path != Slots(q)[j].path
    {
      assert Slots(p)[i].path != Slots(p)[j].path;
    }
  }

  /** What survives of the path of a used slot. */
  lemma AgainBinds(p: Pool, i: nat, e: Entry)
    requires Bearing(p) && Decodes(p) && Ready(Again(p)) && i < |p.names| && p.paths[i] != []
    ensures Binds(FsOf(Again(p)), p.paths[i], e) <==> Survives(p, i) && e == Slots(p)[i].entry
  {
    var q, x := Again(p), p.paths[i];
    MapOfBinds(Slots(q), x, e);
    SlotBinds(Slots(p), i);
    AgainSlot(p, i);
    hide MapOf, SlotOk, Bears;
    if Slot(x, e) in Slots(q) {
      var j :| 0 <= j < |Slots(q)| && Slots(q)[j] == Slot(x, e);
      AgainSlot(p, j);
      assert Slots(p)[j].path == x;
      assert i == j;
    }
    if Survives(p, i) && e == Slots(p)[i].entry {
      assert Slots(q)[i] == Slot(x, e);
    }
  }

  /** A path that was not bound does not come back. */
  lemma AgainAddsNothing(p: Pool, x: Path)
    requires Bearing(p) && Decodes(p) && Ready(Again(p)) && x !in FsOf(p)
    ensures x !in FsOf(Again(p))
  {
    var q := Again(p);
    PathBound(Slots(p), x);
    PathBound(Slots(q), x);
    hide MapOf, SlotOk, Bears;
    forall i | 0 <= i < |Slots(q)|
      ensures x != [] ==> Slots(q)[i].path != x
    {
      AgainSlot(p, i);
      assert x != [] ==> Slots(p)[i].path != x;
    }
  }

  /** The survivors when every slot is in good order but, perhaps, one that lost its path. */
  lemma Kept(p: Pool, lost: Path)
    requires Bearing(p) && Decodes(p)
    requires forall i :: 0 <= i < |p.names| ==>
               if p.paths[i] == lost then !Survives(p, i) else SlotOk(FileOf(p, i), p.paths[i], p.flags[i])
    ensures Ready(Again(p)) && FsOf(Again(p)) == Persistent(FsOf(p) - {lost})
  {
    AgainIsReady(p);
    forall x, e
      ensures Binds(FsOf(Again(p)), x, e) <==> Binds(Persistent(FsOf(p) - {lost}), x, e)
    {
      KeptBinding(p, lost, x, e);
    }
    SameBindings(FsOf(Again(p)), Persistent(FsOf(p) - {lost}));
  }

  lemma PersistentBinds(fs: Fs, lost: Path, x: Path, e: Entry)
    ensures Binds(Persistent(fs - {lost}), x, e) <==> Binds(fs, x, e) && x != lost && Persists(e.flags)
  {}

  lemma KeptBinding(p: Pool, lost: Path, x: Path, e: Entry)
    requires Bearing(p) && Decodes(p) && Ready(Again(p))
    requires forall i :: 0 <= i < |p.names| ==>
               if p.paths[i] == lost then !Survives(p, i) else SlotOk(FileOf(p, i), p.paths[i], p.flags[i])
    ensures Binds(FsOf(Again(p)), x, e) <==> Binds(Persistent(FsOf(p) - {lost}), x, e)
  {
    assert Sized(p);
    PersistentBinds(FsOf(p), lost, x, e);
    hide MapOf, Bears, SlotOk, DistinctPaths, Good, Bearing, Decodes, Again, Survives, Persists, Distinct, Persistent;
    PathBound(Slots(p), x);
    if x in FsOf(p) {
      var i :| 0 <= i < |Slots(p)| && Slots(p)[i].path == x;
      SlotBinds(Slots(p), i);
      AgainSlot(p, i);
      AgainBinds(p, i, e);
    } else {
      AgainAddsNothing(p, x);
    }
  }

  /** Two directories hold the same under a name, or nothing that is a path. */
  ghost predicate Alike(files: map<Name, Bytes>, mid: map<Name, Bytes>, n: Name) {
    || PathIn(files, n) == PathIn(mid, n) == []
    || (&& PathIn(files, n) == PathIn(mid, n) && FlagsIn(files, n) == FlagsIn(mid, n)
        && FileIn(files, n) == FileIn(mid, n))
  }

  lemma AlikeReloads(files: map<Name, Bytes>, order: seq<Name>, created: seq<Name>,
                     mid: map<Name, Bytes>, order': seq<Name>, created': seq<Name>)
    requires Mountable(files, order, created) && Mountable(mid, order', created')
    requires forall n :: Alike(files, mid, n)
    ensures SameByName(Reload(files, order, created), Reload(mid, order', created'))
  {
    var a, b := Reload(files, order, created), Reload(mid, order', created');
    forall i | 0 <= i < |a.names|
      ensures a.paths[i] != [] ==> a.names[i] in b.names
    {
      assert Alike(files, mid, a.names[i]);
      PathedIsListed(mid, order', created', a.names[i]);
    }
    forall j | 0 <= j < |b.names|
      ensures b.paths[j] != [] ==> b.names[j] in a.names
    {
      assert Alike(files, mid, b.names[j]);
      PathedIsListed(files, order, created, b.names[j]);
    }
    hide PathIn, FlagsIn, FileIn, Reload, Data, Mountable;
    forall i, j | 0 <= i < |a.names| && 0 <= j < |b.names| && a.names[i] == b.names[j]
      ensures Slots(a)[i] == Slots(b)[j] || a.paths[i] == b.paths[j] == []
    {
      assert Alike(files, mid, a.names[i]);
    }
  }

  lemma PathedIsListed(files: map<Name, Bytes>, order: seq<Name>, created: seq<Name>, n: Name)
    requires Mountable(files, order, created)
    ensures PathIn(files, n) != [] ==> n in Reload(files, order, created).names
  {
    assert n in files ==> n in order;
  }

  // -- the slots init leaves, told from the files it found ---------------------------

  /** #readPath finds a path that is no more than a byte order mark, and so no path; it leaves the file as it is. */
  predicate Hidden(file: Bytes) {
    && |file| >= CORPUS_SIZE && |file| != SECTOR_SIZE
    && file[..4] == [0xEF, 0xBB, 0xBF, 0] && Persists(FromBe32(file[MAX_PATH_SIZE..CORPUS_SIZE]))
    && StoredDigest(file) == DigestBytes(file[..CORPUS_SIZE])
  }

  lemma SettledIsSwept(file: Bytes)
    ensures SweptFile(Settled(file), Read(file).path) <==> !Hidden(file)
  {
    hide DigestBytes, SetPathCalls, Persists;
    if Read(file) == Discard() {
      DiscardSettles(file);
    } else if Read(file).calls != [] {
      OneTruncate(file);
    } else {
      assert Settled(file) == file;
      var corpus := file[..CORPUS_SIZE];
      assert corpus[MAX_PATH_SIZE..] == file[MAX_PATH_SIZE..CORPUS_SIZE];
      if file[..4] == [0xEF, 0xBB, 0xBF, 0] {
        assert corpus[..4] == file[..4] && corpus[3] == file[..4][3];
        FirstIs(corpus, 0, 0, 3);
      }
    }
  }

  /** The header found under a name agrees with what is read from it. */
  predicate HeaderRead(files: map<Name, Bytes>, n: Name) {
    SlotOk(FileIn(files, n), PathIn(files, n), FlagsIn(files, n))
  }

  predicate SweptRead(files: map<Name, Bytes>, n: Name) { SweptFile(FileIn(files, n), PathIn(files, n)) }

  predicate DecodesRead(files: map<Name, Bytes>, n: Name) {
    Persists(FlagsIn(files, n)) ==> !HasBom(PathIn(files, n))
  }

  /** Good order, empty free slots and decoding paths are each a matter of one file at a time. */
  lemma ReloadTells(files: map<Name, Bytes>, order: seq<Name>, created: seq<Name>)
    requires Mountable(files, order, created)
    ensures var r := Reload(files, order, created);
            && (HeadersAgree(r) <==> forall n :: n in files ==> HeaderRead(files, n))
            && (Swept(r) <==> forall n :: n in files ==> SweptRead(files, n))
            && (NoBoms(r) <==> forall n :: n in files ==> DecodesRead(files, n))
  {
    hide HeadersAgree, Swept, NoBoms, HeaderRead, SweptRead, DecodesRead, Header.Read;
    HeadersTell(files, order, created);
    SweptTells(files, order, created);
    BomsTell(files, order, created);
  }

  lemma HeadersTell(files: map<Name, Bytes>, order: seq<Name>, created: seq<Name>)
    requires Mountable(files, order, created)
    ensures HeadersAgree(Reload(files, order, created)) <==> forall n :: n in files ==> HeaderRead(files, n)
  {
    var r := Reload(files, order, created);
    NewFileIsFree();
    hide SlotOk, SweptFile, Settled, Header.Read, NewFile, Reload;
    if HeadersAgree(r) {
      forall n | n in files
        ensures HeaderRead(files, n)
      {
        var i := Listed(files, order, created, n);
        assert SlotOk(FileOf(r, i), r.paths[i], r.flags[i]);
      }
    }
    if forall n :: n in files ==> HeaderRead(files, n) {
      forall i | 0 <= i < |r.names|
        ensures SlotOk(FileOf(r, i), r.paths[i], r.flags[i])
      {
        assert r.names[i] in files ==> HeaderRead(files, r.names[i]);
      }
    }
  }

  lemma SweptTells(files: map<Name, Bytes>, order: seq<Name>, created: seq<Name>)
    requires Mountable(files, order, created)
    ensures Swept(Reload(files, order, created)) <==> forall n :: n in files ==> SweptRead(files, n)
  {
    var r := Reload(files, order, created);
    NewFileIsFree();
    hide SlotOk, SweptFile, Settled, Header.Read, NewFile, Reload;
    if Swept(r) {
      forall n | n in files
        ensures SweptRead(files, n)
      {
        var i := Listed(files, order, created, n);
        assert SweptFile(FileOf(r, i), r.paths[i]);
      }
    }
  }

  lemma BomsTell(files: map<Name, Bytes>, order: seq<Name>, created: seq<Name>)
    requires Mountable(files, order, created)
    ensures NoBoms(Reload(files, order, created)) <==> forall n :: n in files ==> DecodesRead(files, n)
  {
    var r := Reload(files, order, created);
    hide Header.Read, Reload, Persists;
    if NoBoms(r) {
      forall n | n in files
        ensures DecodesRead(files, n)
      {
        var i := Listed(files, order, created, n);
        assert r.flags[i] == FlagsIn(files, n) && r.paths[i] == PathIn(files, n);
      }
    }
  }

  lemma Listed(files: map<Name, Bytes>, order: seq<Name>, created: seq<Name>, n: Name) returns (i: nat)
    requires Mountable(files, order, created) && n in files
    ensures i < |order + created| && (order + created)[i] == n
  {
    i :| i < |order| && order[i] == n;
  }

  /** What two starts have in common when they leave the same slots, in whatever order. */
  ghost predicate SameStart(a: Pool, b: Pool) {
    && Sized(a) && Sized(b)
    && (Shaped(a) <==> Shaped(b)) && (Shaped(a) && Shaped(b) ==> FsOf(a) == FsOf(b))
    && (HeadersAgree(a) <==> HeadersAgree(b)) && (Swept(a) <==> Swept(b)) && (NoBoms(a) <==> NoBoms(b))
  }

  /** Enumerating the directory in another order, and creating files, changes nothing, whatever is in it. */
  lemma OrderDoesNotMatter(files: map<Name, Bytes>, order: seq<Name>, created: seq<Name>,
                           order': seq<Name>, created': seq<Name>)
    requires Mountable(files, order, created) && Mountable(files, order', created')
    ensures SameStart(Reload(files, order, created), Reload(files, order', created'))
  {
    hide HeadersAgree, Swept, NoBoms, Reload, Mountable, DistinctPaths, MapOf, SameByName, HeaderRead, SweptRead;
    hide DecodesRead;
    ReloadTells(files, order, created);
    ReloadTells(files, order', created');
    AlikeReloads(files, order, created, files, order', created');
    AlikeReloads(files, order', created', files, order, created);
    SameEntries(Reload(files, order, created), Reload(files, order', created'));
  }

  lemma SameEntries(a: Pool, b: Pool)
    requires SameByName(a, b) && SameByName(b, a)
    ensures (Shaped(a) <==> Shaped(b)) && (Shaped(a) && Shaped(b) ==> FsOf(a) == FsOf(b))
  {
    hide SameByName, DistinctPaths, MapOf;
    if Shaped(a) {
      SameDistinct(a, b);
    }
    if Shaped(b) {
      SameDistinct(b, a);
    }
    if Shaped(a) {
      SameMap(a, b);
    }
  }

  lemma GoodIsBearing(p: Pool)
    requires Good(p)
    ensures Bearing(p)
  {
    forall i | 0 <= i < |p.names|
      ensures Bears(FileOf(p, i), p.paths[i], p.flags[i])
    {
      assert SlotOk(FileOf(p, i), p.paths[i], p.flags[i]);
    }
  }

  /** An accepted path that starts with a byte order mark comes back as another, which its header denies. */
  lemma BomIsNotBorne(p: Pool, i: nat, order: seq<Name>, created: seq<Name>)
    requires Bearing(p) && i < |p.names| && Mountable(p.files, order, created)
    requires Bears(FileOf(p, i), p.paths[i], p.flags[i])
    requires Accepted(FileOf(p, i), p.paths[i], p.flags[i]) && HasBom(p.paths[i])
    ensures !Good(Reload(p.files, order, created))
  {
    var r, file, path := Reload(p.files, order, created), FileOf(p, i), p.paths[i];
    BearerSettles(file, path, p.flags[i]);
    var j :| 0 <= j < |order| && order[j] == p.names[i];
    assert r.names[j] == p.names[i] && FileOf(r, j) == file && r.paths[j] == path[3..];
    CorpusReads(path, p.flags[i]);
    if Good(r) {
      assert SlotOk(file, path[3..], r.flags[j]);
      CorpusReads(path[3..], r.flags[j]);
    }
  }

  /**
   * What init makes of the files of p: slots in good order exactly when every
   * accepted path decodes, and then, every free slot being empty, exactly the
   * persistent part of `left`.
   */
  ghost predicate Reloads(p: Pool, left: Fs, order: seq<Name>, created: seq<Name>)
    requires Bearing(p) && Mountable(p.files, order, created)
  {
    var r := Reload(p.files, order, created);
    && (Good(r) <==> Decodes(p))
    && (Good(r) ==> Ready(r) && FsOf(r) == Persistent(left))
  }

  lemma ReloadsExactly(p: Pool, left: Fs, order: seq<Name>, created: seq<Name>)
    requires Bearing(p) && Mountable(p.files, order, created)
    requires Decodes(p) ==> Ready(Again(p)) && FsOf(Again(p)) == Persistent(left)
    ensures Reloads(p, left, order, created)
  {
    if Decodes(p) {
      assert p.names + [] == p.names;
      OrderDoesNotMatter(p.files, p.names, [], order, created);
    } else {
      var i :| 0 <= i < |p.names| && Accepted(FileOf(p, i), p.paths[i], p.flags[i]) && HasBom(p.paths[i]);
      BomIsNotBorne(p, i, order, created);
    }
  }

  /** In a pool in good order, what is accepted is what persists. */
  lemma GoodDecodes(p: Pool)
    requires Good(p)
    ensures Bearing(p) && (Decodes(p) <==> NoBoms(p))
  {
    GoodIsBearing(p);
    assert forall i :: 0 <= i < |p.names| ==> SlotOk(FileOf(p, i), p.paths[i], p.flags[i]);
  }

  /** A pool in good order is started again from its own map. */
  lemma GoodReloads(p: Pool, order: seq<Name>, created: seq<Name>)
    requires Good(p) && Mountable(p.files, order, created)
    ensures Bearing(p) && Reloads(p, FsOf(p), order, created)
  {
    GoodDecodes(p);
    NothingEmpty(p);
    if Decodes(p) {
      assert forall i :: 0 <= i < |p.names| && p.paths[i] == [] ==> !Survives(p, i);
      hide MapOf, DistinctPaths, Bears, Decodes, FsOf, Again, Persistent, Ready;
      Kept(p, []);
    }
    ReloadsExactly(p, FsOf(p), order, created);
  }

  /**
   * A pool in good order, stopped and started again: the slots are in good order
   * exactly when no persistent path starts with a byte order mark; then exactly
   * the persistent entries come back, and every other slot is free and empty.
   */
  lemma CleanReload(p: Pool, order: seq<Name>, created: seq<Name>)
    requires Good(p) && Mountable(p.files, order, created)
    ensures var r := Reload(p.files, order, created);
            && (Good(r) <==> NoBoms(p))
            && (Good(r) ==> Ready(r) && FsOf(r) == Persistent(FsOf(p)))
            && |r.names| == |order| + |created|
  {
    GoodDecodes(p);
    GoodReloads(p, order, created);
  }

  lemma BomsOfPaths(p: Pool)
    requires Good(p)
    ensures NoBoms(p) <==> forall x :: x in FsOf(p) && Persists(FsOf(p)[x].flags) ==> !HasBom(x)
  {
    hide HeadersAgree, MapOf, Persists, HasBom;
    forall i | 0 <= i < |p.paths|
      ensures p.paths[i] != [] ==> p.paths[i] in FsOf(p) && FsOf(p)[p.paths[i]].flags == p.flags[i]
      ensures HasBom(p.paths[i]) ==> p.paths[i] != []
    {
      BomIsSomething(p.paths[i]);
      if p.paths[i] != [] {
        SlotBinds(Slots(p), i);
      }
    }
    forall x | x in FsOf(p)
      ensures exists i :: 0 <= i < |p.paths| && p.paths[i] == x
    {
      PathBound(Slots(p), x);
      var i :| 0 <= i < |Slots(p)| && Slots(p)[i].path == x;
      assert p.paths[i] == x;
    }
  }

  lemma BomIsSomething(x: Path)
    ensures HasBom(x) <==> |x| >= 3 && x[0] == 0xEF && x[1] == 0xBB && x[2] == 0xBF
  {}

  /**
   * What a restart keeps, by the bits of sqlite3.h: a main database, a journal, a
   * super-journal or a WAL file that was not to be deleted on close is back with
   * its flags and contents, and nothing else is, unless one of them has a path
   * that starts with EF BB BF.
   */
  lemma RestartKeeps(p: Pool, order: seq<Name>, created: seq<Name>)
    requires Good(p) && Mountable(p.files, order, created)
    ensures var r := Reload(p.files, order, created);
            Good(r) <==>
            forall x, e :: Binds(FsOf(p), x, e) && e.flags / 0x8 % 2 == 0
                           && (e.flags / 0x100 % 2 == 1 || e.flags / 0x800 % 2 == 1
                               || e.flags / 0x4000 % 2 == 1 || e.flags / 0x80000 % 2 == 1) ==>
              !(|x| >= 3 && x[0] == 0xEF && x[1] == 0xBB && x[2] == 0xBF)
    ensures var r := Reload(p.files, order, created);
            Good(r) ==>
              && Swept(r)
              && forall x, e ::
                   Binds(FsOf(r), x, e) <==>
                   && Binds(FsOf(p), x, e) && e.flags / 0x8 % 2 == 0
                   && (e.flags / 0x100 % 2 == 1 || e.flags / 0x800 % 2 == 1
                       || e.flags / 0x4000 % 2 == 1 || e.flags / 0x80000 % 2 == 1)
  {
    hide Reload, HeadersAgree, DistinctPaths, MapOf, Persists, HasBom, NoBoms, Mountable, Swept;
    CleanReload(p, order, created);
    BomsOfPaths(p);
    forall x, e: Entry
      ensures Persists(e.flags) <==>
              && e.flags / 0x8 % 2 == 0
              && (e.flags / 0x100 % 2 == 1 || e.flags / 0x800 % 2 == 1
                  || e.flags / 0x4000 % 2 == 1 || e.flags / 0x80000 % 2 == 1)
      ensures HasBom(x) <==> |x| >= 3 && x[0] == 0xEF && x[1] == 0xBB && x[2] == 0xBF
      ensures Binds(Persistent(FsOf(p)), x, e) <==> Binds(FsOf(p), x, e) && Persists(e.flags)
    {
      PersistsBits(e.flags);
      BomIsSomething(x);
    }
    assert forall x :: x in FsOf(p) ==> Binds(FsOf(p), x, FsOf(p)[x]);
  }

  // -- crashes -----------------------------------------------------------------------

  /** The files after the first k calls of #setPath on slot i. */
  ghost function TornFiles(p: Pool, i: nat, path: Path, flags: Word, k: nat): map<Name, Bytes>
    requires Sized(p) && i < |p.names| && Fits(path) && k <= |SetPathCalls(path, flags)|
  {
    p.files[p.names[i] := Play(FileOf(p, i), SetPathCalls(path, flags)[..k])]
  }

  /**
   * The map after the first k calls of #setPath: as before, or with the new path
   * bound to the slot's data. Between the two, while the digest is still the old
   * one, the slot has neither path, unless the digests are the same.
   */
  ghost function TornMap(p: Pool, i: nat, path: Path, flags: Word, k: nat): Fs
    requires Good(p) && i < |p.names| && Fits(path) && |FileOf(p, i)| >= SECTOR_SIZE
  {
    if k == 0 then FsOf(p)
    else if k == 1 && path != [] && FileOf(p, i)[CORPUS_SIZE..DIGEST_END] != DigestBytes(Corpus(path, flags)) then
      FsOf(p) - {p.paths[i]}
    else Rebind(FsOf(p), p.paths[i], path, Entry(flags, if path == [] then [] else Data(FileOf(p, i))))
  }

  /** The stored digest after k calls. */
  lemma TornDigest(file: Bytes, path: Path, flags: Word, k: nat)
    requires |file| >= SECTOR_SIZE && Fits(path) && NulFree(path) && 0 < k <= |SetPathCalls(path, flags)|
    ensures var mid := Play(file, SetPathCalls(path, flags)[..k]);
            && |mid| >= SECTOR_SIZE
            && mid[CORPUS_SIZE..DIGEST_END] ==
               if k == 1 then file[CORPUS_SIZE..DIGEST_END] else DigestBytes(Corpus(path, flags))
  {
    hide Corpus, DigestBytes, Play, WriteAt, SetPathCalls, NulFree, Resize;
    SetPathStage(file, path, flags, k);
    WriteHeader(file, path, flags);
    var one := WriteAt(file, 0, Corpus(path, flags));
    var two := WriteAt(one, CORPUS_SIZE, DigestBytes(Corpus(path, flags)));
    if k == 1 {
      assert one[CORPUS_SIZE..DIGEST_END] == one[CORPUS_SIZE..][..8] == file[CORPUS_SIZE..][..8];
    } else if k > 3 {
      HeaderSurvivesResize(two);
    }
  }

  /** Whether the header is accepted after k calls. */
  lemma TornHeader(file: Bytes, path: Path, flags: Word, k: nat)
    requires |file| >= SECTOR_SIZE && Fits(path) && NulFree(path) && 0 < k <= |SetPathCalls(path, flags)|
    ensures var mid := Play(file, SetPathCalls(path, flags)[..k]);
            && Bears(mid, path, flags) && (path != [] ==> Data(mid) == Data(file))
            && mid[CORPUS_SIZE..DIGEST_END] ==
               if k == 1 then file[CORPUS_SIZE..DIGEST_END] else DigestBytes(Corpus(path, flags))
  {
    hide Corpus, DigestBytes, Play, SetPathCalls, NulFree, Data, Bears;
    SetPathInterrupted(file, path, flags, k);
    TornDigest(file, path, flags, k);
  }

  /** The pool after the first k calls of #setPath, index included. */
  ghost function TornPool(p: Pool, i: nat, path: Path, flags: Word, k: nat): Pool
    requires Sized(p) && i < |p.names| && Fits(path) && k <= |SetPathCalls(path, flags)|
  {
    if k == 0 then p else Replace(p, i, path, flags, Play(FileOf(p, i), SetPathCalls(path, flags)[..k]))
  }

  lemma TornReplaced(p: Pool, i: nat, path: Path, flags: Word, k: nat)
    requires Good(p) && MayTake(p, i, path) && |FileOf(p, i)| >= SECTOR_SIZE
    requires 0 < k <= |SetPathCalls(path, flags)|
    ensures var q := TornPool(p, i, path, flags, k);
            && q.files == TornFiles(p, i, path, flags, k) && i < |q.names| && q.paths[i] == path && Bearing(q)
            && FsOf(q) == Rebind(FsOf(p), p.paths[i], path, Entry(flags, Data(FileOf(q, i))))
            && (path != [] ==> Data(FileOf(q, i)) == Data(FileOf(p, i)))
            && (forall j :: 0 <= j < |q.names| && j != i ==> SlotOk(FileOf(q, j), q.paths[j], q.flags[j]))
  {
    hide SlotOk, Bears, SetPathCalls, Play, Data, Again, FsOf, MapOf, DigestBytes, Corpus, DistinctPaths;
    var q := TornPool(p, i, path, flags, k);
    TornHeader(FileOf(p, i), path, flags, k);
    ReplaceSlots(p, i, path, flags, FileOf(q, i));
    ReplaceRebinds(p, i, path, flags, FileOf(q, i));
  }

  lemma TornSurvives(p: Pool, i: nat, path: Path, flags: Word, k: nat)
    requires Sized(p) && i < |p.names| && |FileOf(p, i)| >= SECTOR_SIZE && Fits(path) && NulFree(path)
    requires 0 < k <= |SetPathCalls(path, flags)|
    requires var q := TornPool(p, i, path, flags, k); Bearing(q) && Decodes(q)
    ensures var q := TornPool(p, i, path, flags, k);
            && i < |q.names| && q.names[i] in q.files
            && (Survives(q, i) <==>
                && path != [] && Persists(flags)
                && (k == 1 ==> FileOf(p, i)[CORPUS_SIZE..DIGEST_END] == DigestBytes(Corpus(path, flags))))
  {
    hide SlotOk, Bears, SetPathCalls, Play, Data, Again, Survives, DigestBytes, Corpus, DistinctPaths, Decodes;
    hide NulFree;
    var q := TornPool(p, i, path, flags, k);
    TornHeader(FileOf(p, i), path, flags, k);
    assert FileOf(q, i) == Play(FileOf(p, i), SetPathCalls(path, flags)[..k]);
    AgainSlot(q, i);
  }

  lemma TornAgain(p: Pool, i: nat, path: Path, flags: Word, k: nat)
    requires Good(p) && i < |p.names| && MayTake(p, i, path) && |FileOf(p, i)| >= SECTOR_SIZE
    requires 0 < k <= |SetPathCalls(path, flags)|
    requires var q := TornPool(p, i, path, flags, k); Bearing(q) && Decodes(q)
    ensures var a := Again(TornPool(p, i, path, flags, k));
            Ready(a) && FsOf(a) == Persistent(TornMap(p, i, path, flags, k))
  {
    hide HeadersAgree, SlotOk, Bears, SetPathCalls, Data, Again, Survives, Persistent, Ready, FsOf, MapOf;
    hide DistinctPaths, TornPool, DigestBytes, Corpus, Decodes, MayBind, NulFree;
    var q, was := TornPool(p, i, path, flags, k), p.paths[i];
    TornReplaced(p, i, path, flags, k);
    TornSurvives(p, i, path, flags, k);
    var left := Entry(flags, Data(FileOf(q, i)));
    if path == [] {
      TornKept(q, i, []);
      EmptyRebinds(FsOf(p), was, left, Entry(flags, []));
    } else if Survives(q, i) {
      TornKept(q, i, []);
    } else {
      TornKept(q, i, path);
      LostPath(FsOf(p), p, i, path, left);
      LostAnyway(FsOf(p), was, path, left);
    }
  }

  /** #setPath stopped anywhere, then init. */
  lemma TornSetPath(p: Pool, i: nat, path: Path, flags: Word, k: nat, order: seq<Name>, created: seq<Name>)
    requires Good(p) && i < |p.names| && MayTake(p, i, path) && k <= |SetPathCalls(path, flags)|
    requires Mountable(TornFiles(p, i, path, flags, k), order, created)
    ensures |FileOf(p, i)| >= SECTOR_SIZE
    ensures var q := TornPool(p, i, path, flags, k);
            && Bearing(q) && q.files == TornFiles(p, i, path, flags, k)
            && Reloads(q, TornMap(p, i, path, flags, k), order, created)
  {
    LongEnough(p, i);
    hide HeadersAgree, SetPathCalls, Data, Again, Ready, FsOf, DistinctPaths, DigestBytes, Corpus, Decodes;
    hide MayTake, Mountable, Reloads, TornMap;
    if k == 0 {
      NothingTorn(p, i, path, flags);
      GoodReloads(p, order, created);
    } else {
      var q := TornPool(p, i, path, flags, k);
      TornReplaced(p, i, path, flags, k);
      if Decodes(q) {
        TornAgain(p, i, path, flags, k);
      }
      ReloadsExactly(q, TornMap(p, i, path, flags, k), order, created);
    }
  }

  lemma NothingTorn(p: Pool, i: nat, path: Path, flags: Word)
    requires Good(p) && i < |p.names| && Fits(path) && |FileOf(p, i)| >= SECTOR_SIZE
    ensures TornFiles(p, i, path, flags, 0) == p.files && TornMap(p, i, path, flags, 0) == FsOf(p)
  {}

  lemma EmptyRebinds(fs: Fs, was: Path, a: Entry, b: Entry)
    ensures Rebind(fs, was, [], a) == Rebind(fs, was, [], b)
  {}

  /** A path that does not persist is as good as lost. */
  lemma LostAnyway(fs: Fs, was: Path, path: Path, e: Entry)
    requires path != []
    ensures !Persists(e.flags) ==> Persistent(Rebind(fs, was, path, e)) == Persistent(Rebind(fs, was, path, e) - {path})
  {}

  lemma LostPath(fs: Fs, p: Pool, i: nat, path: Path, e: Entry)
    requires Good(p) && MayTake(p, i, path) && path != [] && fs == FsOf(p)
    ensures Rebind(fs, p.paths[i], path, e) - {path} == fs - {p.paths[i]}
  {
    PathBound(Slots(p), path);
  }

  /** Which slots come back: only slot i may lose its path, and only that path. */
  lemma TornSlot(q: Pool, i: nat, lost: Path, j: nat)
    requires Bearing(q) && i < |q.names| && j < |q.names|
    requires j != i ==> SlotOk(FileOf(q, j), q.paths[j], q.flags[j])
    requires Survives(q, i) ==> SlotOk(FileOf(q, i), q.paths[i], q.flags[i])
    requires if lost == [] then q.paths[i] == [] || Survives(q, i) else q.paths[i] == lost && !Survives(q, i)
    ensures if q.paths[j] == lost then !Survives(q, j) else SlotOk(FileOf(q, j), q.paths[j], q.flags[j])
  {
    hide Bears, SlotOk;
    if lost != [] {
      SlotBinds(Slots(q), i);
      assert Slots(q)[j].path == q.paths[j];
    }
  }

  lemma TornKept(q: Pool, i: nat, lost: Path)
    requires Bearing(q) && Decodes(q) && i < |q.names|
    requires forall j :: 0 <= j < |q.names| && j != i ==> SlotOk(FileOf(q, j), q.paths[j], q.flags[j])
    requires if lost == [] then q.paths[i] == [] || Survives(q, i) else q.paths[i] == lost && !Survives(q, i)
    ensures Ready(Again(q)) && FsOf(Again(q)) == Persistent(if lost == [] then FsOf(q) else FsOf(q) - {lost})
  {
    assert Shaped(q);
    hide MapOf, DistinctPaths, Bears, SlotOk, Bearing, Decodes, FsOf, Again, Ready, Survives, Persistent;
    AgainSlot(q, i);
    NothingEmpty(q);
    forall j | 0 <= j < |q.names|
      ensures if q.paths[j] == lost then !Survives(q, j) else SlotOk(FileOf(q, j), q.paths[j], q.flags[j])
    {
      TornSlot(q, i, lost, j);
    }
    Kept(q, lost);
  }

  lemma NothingEmpty(p: Pool)
    requires Shaped(p)
    ensures FsOf(p) - {[]} == FsOf(p)
  {
    PathBound(Slots(p), []);
  }

  lemma TornSteps(p: Pool, i: nat, path: Path, flags: Word, k: nat)
    requires Sized(p) && i < |p.names| && Fits(path) && k <= |SetPathCalls(path, flags)|
    ensures var steps := On(p.names[i], SetPathCalls(path, flags))[..k];
            Names(steps, p.files.Keys) && PlayAll(p.files, steps) == TornFiles(p, i, path, flags, k)
  {
    hide SetPathCalls;
    var calls := SetPathCalls(path, flags);
    assert On(p.names[i], calls)[..k] == On(p.names[i], calls[..k]);
    PlayAllOn(p.files, p.names[i], calls[..k]);
  }

  /**
   * What an interrupted operation may leave: the map before, the map after,
   * and for a rename also the two maps that have lost `to`, or `to` and `from`.
   */
  ghost predicate MayRemain(fs: Fs, n: nat, m: MapOp, left: Fs) {
    || left == fs
    || left == Plain(fs, n, m)
    || (m.Move? && m.from in fs && (left == fs - {m.to} || left == fs - {m.to, m.from}))
  }

  /** The map after the first k calls of remove. */
  ghost function RemoveMap(p: Pool, path: Path, k: nat): Fs
    requires Good(p)
  {
    if Find(p, path) < 0 then FsOf(p)
    else
      LongEnough(p, Find(p, path));
      TornMap(p, Find(p, path), [], 0, k)
  }

  lemma RemoveKeepsGood(p: Pool, path: Path)
    requires Good(p)
    ensures Good(AfterRemove(p, path)) && FsOf(AfterRemove(p, path)) == FsOf(p) - {path}
    ensures Slots(AfterRemove(p, path)) == Removed(Slots(p), path)
  {
    OperationsMeet(p, Remove(path));
  }

  /** The map after the first k calls of an operation, exactly. */
  ghost function CrashMap(p: Pool, op: Op, k: nat): Fs
    requires Good(p) && CStrings(op)
  {
    match op
    case Open(path, flags) =>
      if OpenSteps(p, path, flags) == [] then FsOf(p)
      else
        LongEnough(p, FreeSlot(p));
        TornMap(p, FreeSlot(p), path, flags, k)
    case Remove(path) => RemoveMap(p, path, k)
    case Rename(from, to) =>
      var i, first := Find(p, from), |RemoveSteps(p, to)|;
      if i < 0 then FsOf(p)
      else if k <= first || !Fits(to) then RemoveMap(p, to, k)
      else
        RemoveKeepsGood(p, to);
        LongEnough(AfterRemove(p, to), i);
        TornMap(AfterRemove(p, to), i, to, p.flags[i], k - first)
    case _ =>
      OperationsMeet(p, op);
      if k == 0 then FsOf(p) else FsOf(After(p, op))
  }

  /** The pool after the first k calls of remove. */
  ghost function RemovePool(p: Pool, path: Path, k: nat): Pool
    requires Sized(p) && k <= |RemoveSteps(p, path)|
  {
    if Find(p, path) < 0 then p else TornPool(p, Find(p, path), [], 0, k)
  }

  /** The pool after the first k calls of an operation, index included. */
  ghost function CrashPool(p: Pool, op: Op, k: nat): Pool
    requires Sized(p) && k <= |Steps(p, op)|
  {
    match op
    case Open(path, flags) =>
      if OpenSteps(p, path, flags) == [] then p else TornPool(p, FreeSlot(p), path, flags, k)
    case Remove(path) => RemovePool(p, path, k)
    case Rename(from, to) =>
      var i, first := Find(p, from), |RemoveSteps(p, to)|;
      if i < 0 then p
      else if k <= first then RemovePool(p, to, k)
      else
        AfterRemoveSized(p, to);
        TornPool(AfterRemove(p, to), i, to, p.flags[i], k - first)
    case _ => if k == 0 then p else After(p, op)
  }

  /** An operation stopped after k handle calls, then init. */
  ghost predicate Recovers(p: Pool, op: Op, k: nat, order: seq<Name>, created: seq<Name>)
    requires Good(p) && CStrings(op) && k <= |Steps(p, op)|
    requires Mountable(PlayAll(p.files, Steps(p, op)[..k]), order, created)
  {
    var q := CrashPool(p, op, k);
    && q.files == PlayAll(p.files, Steps(p, op)[..k]) && Bearing(q)
    && Reloads(q, CrashMap(p, op, k), order, created)
  }

  lemma CrashInOpen(p: Pool, path: Path, flags: Word, k: nat, order: seq<Name>, created: seq<Name>)
    requires Good(p) && NulFree(path) && k <= |OpenSteps(p, path, flags)|
    requires Mountable(PlayAll(p.files, OpenSteps(p, path, flags)[..k]), order, created)
    ensures Recovers(p, Open(path, flags), k, order, created)
  {
    FindTells(p, path);
    hide SetPathCalls, TornMap, TornPool, HeadersAgree, FsOf, DistinctPaths, Reloads, Bearing;
    if OpenSteps(p, path, flags) == [] {
      GoodReloads(p, order, created);
    } else {
      FreeSlotTells(p, path);
      TornSteps(p, FreeSlot(p), path, flags, k);
      TornSetPath(p, FreeSlot(p), path, flags, k, order, created);
    }
  }

  lemma CrashInRemove(p: Pool, path: Path, k: nat, order: seq<Name>, created: seq<Name>)
    requires Good(p) && k <= |RemoveSteps(p, path)|
    requires Mountable(PlayAll(p.files, RemoveSteps(p, path)[..k]), order, created)
    ensures var q := RemovePool(p, path, k);
            && q.files == PlayAll(p.files, RemoveSteps(p, path)[..k]) && Bearing(q)
            && Reloads(q, RemoveMap(p, path, k), order, created)
  {
    hide SetPathCalls, TornMap, TornPool, HeadersAgree, FsOf, DistinctPaths, Reloads, Bearing;
    if Find(p, path) < 0 {
      GoodReloads(p, order, created);
    } else {
      FoundMayTake(p, path, []);
      TornSteps(p, Find(p, path), [], 0, k);
      TornSetPath(p, Find(p, path), [], 0, k, order, created);
    }
  }

  lemma CrashInRename(p: Pool, from: Path, to: Path, k: nat, order: seq<Name>, created: seq<Name>)
    requires Good(p) && NulFree(to) && k <= |RenameSteps(p, from, to)|
    requires Mountable(PlayAll(p.files, RenameSteps(p, from, to)[..k]), order, created)
    ensures Recovers(p, Rename(from, to), k, order, created)
  {
    hide RemoveSteps, SetPathCalls, FsOf, PlayAll, Mountable, TornFiles, TornMap, TornPool, HeadersAgree;
    hide DistinctPaths, NulFree, Slots, Distinct, RemoveMap, RemovePool, Reloads, Bearing;
    PlaysNothing(p.files);
    if Find(p, from) < 0 {
      assert RenameSteps(p, from, to)[..k] == [];
      GoodReloads(p, order, created);
    } else {
      RenamePrefix(p, from, to, k);
      if k <= |RemoveSteps(p, to)| {
        CrashInRemove(p, to, k, order, created);
      } else {
        RenameCrashedLate(p, from, to, k - |RemoveSteps(p, to)|);
        CrashLateInRename(p, from, to, k - |RemoveSteps(p, to)|, order, created);
      }
    }
  }

  /** A prefix of a rename is a prefix of remove(to), or all of it and a prefix of the #setPath. */
  lemma RenamePrefix(p: Pool, from: Path, to: Path, k: nat)
    requires Sized(p) && Find(p, from) >= 0 && k <= |RenameSteps(p, from, to)|
    ensures var first := RemoveSteps(p, to);
            var i := Find(p, from);
            if k <= |first| then RenameSteps(p, from, to)[..k] == first[..k]
            else && Fits(to) && k - |first| <= |SetPathCalls(to, p.flags[i])|
                 && RenameSteps(p, from, to)[..k] == first + On(p.names[i], SetPathCalls(to, p.flags[i]))[..k - |first|]
  {
    hide RemoveSteps, SetPathCalls, Find;
  }

  /** The files once remove(to) is complete and k calls of the second half are made. */
  lemma RenameCrashedLate(p: Pool, from: Path, to: Path, k: nat)
    requires Sized(p) && Find(p, from) >= 0 && Fits(to)
    requires k <= |SetPathCalls(to, p.flags[Find(p, from)])|
    ensures var i := Find(p, from);
            var last := On(p.names[i], SetPathCalls(to, p.flags[i]))[..k];
            && Names(RemoveSteps(p, to) + last, p.files.Keys)
            && PlayAll(p.files, RemoveSteps(p, to) + last) == TornFiles(AfterRemove(p, to), i, to, p.flags[i], k)
  {
    hide SetPathCalls;
    var i := Find(p, from);
    var last := On(p.names[i], SetPathCalls(to, p.flags[i]))[..k];
    RemovePlays(p, to);
    AfterRemoveSized(p, to);
    TornSteps(AfterRemove(p, to), i, to, p.flags[i], k);
    PlayAllConcat(p.files, RemoveSteps(p, to), last);
  }

  lemma AfterRemoveSized(p: Pool, to: Path)
    requires Sized(p)
    ensures Sized(AfterRemove(p, to))
  {}

  /** After remove(to) slot i may take `to`, and is as before unless it was the one. */
  lemma FreedSlot(p: Pool, to: Path, i: nat)
    requires Good(p) && NulFree(to) && i < |p.names| && p.paths[i] != []
    ensures var mid := AfterRemove(p, to);
            && Good(mid) && (Fits(to) ==> MayTake(mid, i, to))
            && Slots(mid)[i] == if p.paths[i] == to then FREED else Slots(p)[i]
  {
    RemoveKeepsGood(p, to);
    TableIsOk(p);
    RemovedDrops(Slots(p), to);
    PathBound(Slots(AfterRemove(p, to)), to);
  }

  lemma CrashLateInRename(p: Pool, from: Path, to: Path, k: nat, order: seq<Name>, created: seq<Name>)
    requires Good(p) && NulFree(to) && Find(p, from) >= 0 && Fits(to)
    requires k <= |SetPathCalls(to, p.flags[Find(p, from)])|
    requires Mountable(TornFiles(AfterRemove(p, to), Find(p, from), to, p.flags[Find(p, from)], k), order, created)
    ensures Good(AfterRemove(p, to)) && |FileOf(AfterRemove(p, to), Find(p, from))| >= SECTOR_SIZE
    ensures var mid, i := AfterRemove(p, to), Find(p, from);
            var q := TornPool(mid, i, to, p.flags[i], k);
            && Bearing(q) && q.files == TornFiles(mid, i, to, p.flags[i], k)
            && Reloads(q, TornMap(mid, i, to, p.flags[i], k), order, created)
  {
    var i := Find(p, from);
    FreedSlot(p, to, i);
    hide SetPathCalls, AfterRemove, MapOf, Bears, SlotOk, TornMap, TornPool, Reloads;
    TornSetPath(AfterRemove(p, to), i, to, p.flags[i], k, order, created);
  }

  // -- the maps that may remain ------------------------------------------------------------

  lemma OpenRemains(p: Pool, path: Path, flags: Word, k: nat)
    requires Good(p) && NulFree(path)
    ensures MayRemain(FsOf(p), |p.names|, Meaning(Slots(p), Open(path, flags)), CrashMap(p, Open(path, flags), k))
  {
    FindTells(p, path);
    TableFinds(p, path);
    NothingEmpty(p);
    hide MapOf, HeadersAgree, DistinctPaths, DigestBytes, Data, SetPathCalls, Find, FirstFree;
    if OpenSteps(p, path, flags) != [] {
      assert Leftover(Slots(p)) == Data(FileOf(p, FreeSlot(p)));
    }
  }

  /** Before the first call the map is the old one, and after the last what the operation gives. */
  lemma CrashEnds(p: Pool, op: Op)
    requires Good(p) && CStrings(op)
    ensures CrashMap(p, op, 0) == FsOf(p)
    ensures Good(After(p, op)) && CrashMap(p, op, |Steps(p, op)|) == FsOf(After(p, op))
  {
    hide MapOf, HeadersAgree, DistinctPaths, DigestBytes, Data, SetPathCalls, After, Act, Plain, OpenSteps;
    hide RenameSteps, RemoveSteps;
    OperationsMeet(p, op);
    match op
    case Open(path, flags) => OpenEnds(p, path, flags);
    case Remove(path) => RemoveEnds(p, path);
    case Rename(from, to) => RenameEnds(p, from, to);
    case _ => DataEnds(p, op);
  }

  lemma DataEnds(p: Pool, op: Op)
    requires Sized(p) && (op.WriteSlot? || op.TruncateSlot?)
    ensures |Steps(p, op)| == 0 ==> After(p, op) == p
  {}

  lemma OpenEnds(p: Pool, path: Path, flags: Word)
    requires Good(p) && NulFree(path)
    ensures CrashMap(p, Open(path, flags), |OpenSteps(p, path, flags)|) ==
            Plain(FsOf(p), |p.names|, Meaning(Slots(p), Open(path, flags)))
  {
    FindTells(p, path);
    TableFinds(p, path);
    NothingEmpty(p);
    hide MapOf, HeadersAgree, DistinctPaths, DigestBytes, Data, Find, FirstFree;
    if OpenSteps(p, path, flags) != [] {
      assert Leftover(Slots(p)) == Data(FileOf(p, FreeSlot(p)));
    }
  }

  lemma RemovalCount(p: Pool, path: Path)
    requires Sized(p) && Find(p, path) >= 0
    ensures |RemoveSteps(p, path)| > 1
  {}

  lemma RemoveEnds(p: Pool, path: Path)
    requires Good(p)
    ensures RemoveMap(p, path, |RemoveSteps(p, path)|) == Plain(FsOf(p), |p.names|, Drop(path)) == FsOf(p) - {path}
  {
    hide MapOf, HeadersAgree, DistinctPaths, DigestBytes, Data, RemoveSteps, FsOf, SetPathCalls;
    FindTells(p, path);
    if Find(p, path) >= 0 {
      RemovalCount(p, path);
    }
  }

  lemma RenameCount(p: Pool, from: Path, to: Path)
    requires Sized(p)
    ensures |RenameSteps(p, from, to)| - |RemoveSteps(p, to)| > 1 || Find(p, from) < 0 || !Fits(to)
    ensures Find(p, from) >= 0 && !Fits(to) ==> |RenameSteps(p, from, to)| == |RemoveSteps(p, to)|
  {
    hide RemoveSteps;
  }

  lemma RenameEnds(p: Pool, from: Path, to: Path)
    requires Good(p) && NulFree(to)
    ensures CrashMap(p, Rename(from, to), |RenameSteps(p, from, to)|) == Plain(FsOf(p), |p.names|, Move(from, to))
  {
    hide HeadersAgree, DistinctPaths, DigestBytes, Data, MapOf, AfterRemove, FsOf, NulFree, RemoveSteps, RemoveMap;
    hide RenameSteps, SetPathCalls, TornMap, Find;
    FindTells(p, from);
    RenameCount(p, from, to);
    if Find(p, from) >= 0 && Fits(to) {
      LateEnds(p, from, to, |RenameSteps(p, from, to)| - |RemoveSteps(p, to)|);
    } else if Find(p, from) >= 0 {
      RemoveEnds(p, to);
      TooLongToBind(p, to);
    }
  }

  lemma TooLongToBind(p: Pool, to: Path)
    requires Good(p) && !Fits(to)
    ensures FsOf(p) - {to} == FsOf(p)
  {
    BoundFits(p, to);
  }

  lemma LateEnds(p: Pool, from: Path, to: Path, k: nat)
    requires Good(p) && NulFree(to) && Find(p, from) >= 0 && Fits(to) && k > 1
    ensures Good(AfterRemove(p, to)) && |FileOf(AfterRemove(p, to), Find(p, from))| >= SECTOR_SIZE
    ensures TornMap(AfterRemove(p, to), Find(p, from), to, p.flags[Find(p, from)], k) ==
            Plain(FsOf(p), |p.names|, Move(from, to))
  {
    hide HeadersAgree, DistinctPaths, DigestBytes, Data, SetPathCalls, Plain, AfterRemove, FsOf, NulFree;
    LateSlot(p, from, to);
    assert FsOf(p) - {to} - {from} == FsOf(p) - {to, from};
    assert FsOf(p) - {to} - {[]} == FsOf(p) - {to};
    MoveMaps(FsOf(p), |p.names|, from, to);
  }

  lemma RemoveRemains(p: Pool, path: Path, k: nat)
    requires Good(p)
    ensures RemoveMap(p, path, k) == FsOf(p) || RemoveMap(p, path, k) == FsOf(p) - {path}
  {
    hide MapOf, HeadersAgree, DistinctPaths, DigestBytes, Data;
  }

  lemma RenameRemains(p: Pool, from: Path, to: Path, k: nat)
    requires Good(p) && NulFree(to) && k <= |RenameSteps(p, from, to)|
    ensures MayRemain(FsOf(p), |p.names|, Move(from, to), CrashMap(p, Rename(from, to), k))
  {
    hide MapOf, HeadersAgree, DistinctPaths, SetPathCalls, RemoveMap, Plain, RemoveSteps, AfterRemove, TornMap;
    hide FsOf, NulFree, RenameSteps;
    FindTells(p, from);
    RemoveRemains(p, to, k);
    if Find(p, from) >= 0 && k > |RemoveSteps(p, to)| && Fits(to) {
      hide MayRemain;
      LateRemains(p, from, to, k - |RemoveSteps(p, to)|);
    }
  }

  /** What slot `from` looks like after remove(to). */
  lemma LateSlot(p: Pool, from: Path, to: Path)
    requires Good(p) && NulFree(to) && Find(p, from) >= 0
    ensures var mid, i := AfterRemove(p, to), Find(p, from);
            && Good(mid) && FsOf(mid) == FsOf(p) - {to} && |FileOf(mid, i)| >= SECTOR_SIZE
            && from in FsOf(p) && FsOf(p)[from].flags == p.flags[i] && [] !in FsOf(p)
            && mid.paths[i] == (if from == to then [] else from)
            && Data(FileOf(mid, i)) == if from == to then [] else FsOf(p)[from].data
  {
    var mid, i := AfterRemove(p, to), Find(p, from);
    FindTells(p, from);
    PathBound(Slots(p), []);
    FreedSlot(p, to, i);
    RemoveKeepsGood(p, to);
    LongEnough(mid, i);
    hide MapOf, HeadersAgree, DistinctPaths, Data, SetPathCalls, AfterRemove, Removed;
    assert Slots(mid)[i] == Slot(mid.paths[i], Entry(mid.flags[i], Data(FileOf(mid, i))));
    assert Slots(p)[i] == Slot(p.paths[i], Entry(p.flags[i], Data(FileOf(p, i))));
  }

  lemma LateRemains(p: Pool, from: Path, to: Path, k: nat)
    requires Good(p) && NulFree(to) && Find(p, from) >= 0 && Fits(to)
    ensures Good(AfterRemove(p, to)) && |FileOf(AfterRemove(p, to), Find(p, from))| >= SECTOR_SIZE
    ensures MayRemain(FsOf(p), |p.names|, Move(from, to),
                      TornMap(AfterRemove(p, to), Find(p, from), to, p.flags[Find(p, from)], k))
  {
    hide HeadersAgree, DistinctPaths, DigestBytes, Data, SetPathCalls, Plain, AfterRemove, MayRemain, FsOf, NulFree;
    LateSlot(p, from, to);
    LateMaps(FsOf(p), |p.names|, from, to,
             TornMap(AfterRemove(p, to), Find(p, from), to, p.flags[Find(p, from)], k));
  }

  lemma LateMaps(before: Fs, n: nat, from: Path, to: Path, fs: Fs)
    requires from in before && [] !in before && Fits(to)
    requires var mid := before - {to};
             var was := if from == to then [] else from;
             var data := if to == [] || from == to then [] else before[from].data;
             fs == mid || fs == mid - {was} || fs == Rebind(mid, was, to, Entry(before[from].flags, data))
    ensures MayRemain(before, n, Move(from, to), fs)
  {
    assert before - {to} - {from} == before - {to, from};
    assert before - {to} - {[]} == before - {to};
    MoveMaps(before, n, from, to);
  }

  /**
   * Crash recovery: an operation stopped between any two handle calls, then
   * init over the files in any order. Every slot is in good order again exactly
   * when every accepted path decodes; then every free slot is empty, and the map
   * is the persistent part of the one the calls made so far amount to, which is
   * one of the maps the operation may leave.
   */
  lemma CrashRecovers(p: Pool, op: Op, k: nat, order: seq<Name>, created: seq<Name>)
    requires Good(p) && CStrings(op) && k <= |Steps(p, op)|
    requires Mountable(PlayAll(p.files, Steps(p, op)[..k]), order, created)
    ensures Bearing(CrashPool(p, op, k))
    ensures var r := Reload(PlayAll(p.files, Steps(p, op)[..k]), order, created);
            && (Good(r) <==> Decodes(CrashPool(p, op, k)))
            && (Good(r) ==> Ready(r) && FsOf(r) == Persistent(CrashMap(p, op, k)))
    ensures MayRemain(FsOf(p), |p.names|, Meaning(Slots(p), op), CrashMap(p, op, k))
  {
    hide MayRemain, Decodes, SetPathCalls, HeadersAgree, DistinctPaths, OpenSteps, RemoveSteps, RenameSteps;
    hide TornMap, TornPool, Ready, Bearing, RemovePool;
    match op
    case Open(path, flags) =>
      CrashInOpen(p, path, flags, k, order, created);
      OpenRemains(p, path, flags, k);
    case Remove(path) =>
      CrashInRemove(p, path, k, order, created);
      RemoveRemains(p, path, k);
      RemovalMayRemain(FsOf(p), |p.names|, path);
    case Rename(from, to) =>
      CrashInRename(p, from, to, k, order, created);
      RenameRemains(p, from, to, k);
    case _ => CrashInData(p, op, k, order, created);
  }

  /** What is enough: no persistent path starts with a byte order mark, nor does the new one if it is to persist. */
  lemma PathsDecode(p: Pool, op: Op, k: nat)
    requires Good(p) && NoBoms(p) && CStrings(op) && k <= |Steps(p, op)|
    requires op.Open? && Persists(op.flags) ==> !HasBom(op.path)
    requires op.Rename? && Find(p, op.from) >= 0 && Persists(p.flags[Find(p, op.from)]) ==> !HasBom(op.to)
    requires Bearing(CrashPool(p, op, k))
    ensures Decodes(CrashPool(p, op, k))
  {
    hide HeadersAgree, DistinctPaths, SetPathCalls, TornPool, NoBoms, Bearing, Decodes, Play, Distinct, Holder;
    match op {
      case Open(path, flags) =>
        if OpenSteps(p, path, flags) != [] {
          TornKeepsPaths(p, FreeSlot(p), path, flags, k);
        }
      case Remove(path) => RemovalDecodes(p, path, k);
      case Rename(from, to) =>
        if Find(p, from) >= 0 {
          var first := |RemoveSteps(p, to)|;
          if k <= first {
            RemovalDecodes(p, to, k);
          } else {
            AfterRemoveSized(p, to);
            RemovedDecodes(p, to);
            TornKeepsPaths(AfterRemove(p, to), Find(p, from), to, p.flags[Find(p, from)], k - first);
          }
        }
      case _ => DataOpsKeepPaths(p, op);
    }
    NoBomsDecode(CrashPool(p, op, k));
  }

  lemma NoBomsDecode(p: Pool)
    requires Bearing(p) && NoBoms(p)
    ensures Decodes(p)
  {}

  lemma TornKeepsPaths(p: Pool, i: nat, path: Path, flags: Word, k: nat)
    requires Sized(p) && i < |p.names| && Fits(path) && k <= |SetPathCalls(path, flags)|
    requires NoBoms(p) && (Persists(flags) ==> !HasBom(path))
    ensures var q := TornPool(p, i, path, flags, k); |q.paths| == |q.flags| && NoBoms(q)
  {}

  lemma RemovalDecodes(p: Pool, path: Path, k: nat)
    requires Sized(p) && NoBoms(p) && k <= |RemoveSteps(p, path)|
    ensures var q := RemovePool(p, path, k); |q.paths| == |q.flags| && NoBoms(q)
  {
    hide SetPathCalls, TornPool, NoBoms;
    if Find(p, path) >= 0 {
      TornKeepsPaths(p, Find(p, path), [], 0, k);
    }
  }

  lemma RemovedDecodes(p: Pool, path: Path)
    requires Sized(p) && NoBoms(p)
    ensures NoBoms(AfterRemove(p, path))
  {}

  lemma DataOpsKeepPaths(p: Pool, op: Op)
    requires Sized(p) && NoBoms(p) && (op.WriteSlot? || op.TruncateSlot?)
    ensures NoBoms(After(p, op))
  {}

  lemma RemovalMayRemain(fs: Fs, n: nat, path: Path)
    ensures MayRemain(fs, n, Drop(path), fs) && MayRemain(fs, n, Drop(path), fs - {path})
  {}

  lemma CrashInData(p: Pool, op: Op, k: nat, order: seq<Name>, created: seq<Name>)
    requires Good(p) && (op.WriteSlot? || op.TruncateSlot?) && k <= |Steps(p, op)|
    requires Mountable(PlayAll(p.files, Steps(p, op)[..k]), order, created)
    ensures MayRemain(FsOf(p), |p.names|, Meaning(Slots(p), op), CrashMap(p, op, k))
    ensures Recovers(p, op, k, order, created)
  {
    hide HeadersAgree, DistinctPaths, After, Steps, Reloads, Bearing, MapOf, Meaning, Plain, Act;
    StepsOfData(p, op);
    OperationsMeet(p, op);
    if k == 0 {
      assert Steps(p, op)[..k] == [];
      PlaysNothing(p.files);
      GoodReloads(p, order, created);
    } else {
      assert Steps(p, op)[..k] == Steps(p, op);
      StepsMakeAfter(p, op);
      GoodReloads(After(p, op), order, created);
    }
  }

  lemma StepsOfData(p: Pool, op: Op)
    requires Sized(p) && (op.WriteSlot? || op.TruncateSlot?)
    ensures |Steps(p, op)| <= 1
  {}

  /**
   * Any history of operations, a crash inside one more of them, and a reload:
   * if every accepted path decodes, the pool stands for the persistent part of
   * the map that history and the calls made so far amount to, which is one that
   * the last operation may leave of the table of slots; and otherwise it is not
   * in good order.
   */
  lemma HistoryCrashReload(p: Pool, ops: seq<Op>, op: Op, k: nat, order: seq<Name>, created: seq<Name>)
    requires Good(p) && CStrings(op) && forall i :: 0 <= i < |ops| ==> CStrings(ops[i])
    requires Sized(AfterAll(p, ops)) && k <= |Steps(AfterAll(p, ops), op)|
    requires Mountable(PlayAll(AfterAll(p, ops).files, Steps(AfterAll(p, ops), op)[..k]), order, created)
    ensures Good(AfterAll(p, ops)) && Bearing(CrashPool(AfterAll(p, ops), op, k))
    ensures DistinctPaths(ActAll(Slots(p), ops))
    ensures var t := ActAll(Slots(p), ops);
            && MayRemain(MapOf(t), |t|, Meaning(t, op), CrashMap(AfterAll(p, ops), op, k))
            && (k == 0 ==> CrashMap(AfterAll(p, ops), op, k) == MapOf(t))
    ensures var q := AfterAll(p, ops);
            var r := Reload(PlayAll(q.files, Steps(q, op)[..k]), order, created);
            && (Good(r) <==> Decodes(CrashPool(q, op, k)))
            && (Good(r) ==> Ready(r) && FsOf(r) == Persistent(CrashMap(q, op, k)))
  {
    HistoryMeets(p, ops);
    hide Decodes, HeadersAgree, CrashMap, CrashPool, MayRemain, Ready, Bearing;
    CrashRecovers(AfterAll(p, ops), op, k, order, created);
    CrashEnds(AfterAll(p, ops), op);
  }

  // -- sessions --------------------------------------------------------------------------------

  /**
   * From one start to the next: operations carried out, one more that is cut
   * short after k handle calls (0 for a clean stop), and what the next init finds.
   */
  datatype Session = Session(ops: seq<Op>, last: Op, k: nat, order: seq<Name>, created: seq<Name>)

  ghost predicate Played(p: Pool, s: Session)
    requires Sized(p)
  {
    var q := AfterAll(p, s.ops);
    && CStrings(s.last) && (forall i :: 0 <= i < |s.ops| ==> CStrings(s.ops[i]))
    && Sized(q) && s.k <= |Steps(q, s.last)|
    && Mountable(PlayAll(q.files, Steps(q, s.last)[..s.k]), s.order, s.created)
    && var torn := CrashPool(q, s.last, s.k); Bearing(torn) ==> Decodes(torn)
  }

  ghost function Restarted(p: Pool, s: Session): (r: Pool)
    requires Sized(p) && Played(p, s)
    ensures Sized(r)
  {
    Reload(PlayAll(AfterAll(p, s.ops).files, Steps(AfterAll(p, s.ops), s.last)[..s.k]), s.order, s.created)
  }

  ghost predicate AllPlayed(p: Pool, ss: seq<Session>)
    requires Sized(p)
    decreases |ss|
  {
    ss == [] || (Played(p, ss[0]) && AllPlayed(Restarted(p, ss[0]), ss[1..]))
  }

  ghost function LastPool(p: Pool, ss: seq<Session>): Pool
    requires Sized(p) && AllPlayed(p, ss)
    decreases |ss|
  {
    if ss == [] then p else LastPool(Restarted(p, ss[0]), ss[1..])
  }

  /**
   * Each session in turn starts from the persistent part of the map that the
   * operations of the one before, and the handle calls of its last, amount to.
   */
  ghost predicate EachRecovers(p: Pool, ss: seq<Session>)
    requires Sized(p) && AllPlayed(p, ss)
    decreases |ss|
  {
    ss != [] ==>
      && Recovered(p, ss[0])
      && EachRecovers(Restarted(p, ss[0]), ss[1..])
  }

  ghost predicate Recovered(p: Pool, s: Session)
    requires Sized(p) && Played(p, s)
  {
    var q, t, r := AfterAll(p, s.ops), ActAll(Slots(p), s.ops), Restarted(p, s);
    && Good(q) && DistinctPaths(t) && Ready(r)
    && var left := CrashMap(q, s.last, s.k);
       && FsOf(r) == Persistent(left) && MayRemain(MapOf(t), |t|, Meaning(t, s.last), left)
       && (s.k == 0 ==> left == MapOf(t))
  }

  /** Any number of sessions, each cut short anywhere: every start finds the pool in good order and free slots empty. */
  lemma {:induction false} SessionsRecover(p: Pool, ss: seq<Session>)
    requires Good(p) && AllPlayed(p, ss)
    ensures EachRecovers(p, ss) && Good(LastPool(p, ss)) && (ss != [] ==> Ready(LastPool(p, ss)))
    decreases |ss|
  {
    if ss != [] {
      SessionRecovers(p, ss[0]);
      SessionsRecover(Restarted(p, ss[0]), ss[1..]);
    }
  }

  lemma SessionRecovers(p: Pool, s: Session)
    requires Good(p) && Played(p, s)
    ensures Recovered(p, s) && Good(Restarted(p, s))
  {
    hide HeadersAgree, MayRemain, Decodes, Bearing, CrashPool, Steps, PlayAll, Mountable, DistinctPaths, Meaning;
    hide CrashMap;
    HistoryCrashReload(p, s.ops, s.last, s.k, s.order, s.created);
  }

  /** The first start, in an empty directory: every slot is free. */
  lemma FirstStart(created: seq<Name>)
    requires Mountable(map[], [], created)
    ensures var r := Reload(map[], [], created);
            Ready(r) && FsOf(r) == map[] && |r.names| == |created|
  {
    NewFileIsFree();
    hide SlotOk, SweptFile, NewFile;
    AllFree(Reload(map[], [], created));
  }

  lemma AllFree(r: Pool)
    requires Sized(r)
    requires forall i :: 0 <= i < |r.names| ==>
               r.paths[i] == [] && SlotOk(FileOf(r, i), [], r.flags[i]) && SweptFile(FileOf(r, i), [])
    ensures Ready(r) && FsOf(r) == map[]
  {
    hide SlotOk, SweptFile;
    forall x
      ensures x !in MapOf(Slots(r))
    {
      PathBound(Slots(r), x);
    }
  }

  // -- what init leaves in free slots ----------------------------------------------------------

  /** init leaves nothing in a free slot exactly when no file hides behind a byte order mark. */
  lemma ReloadSweeps(files: map<Name, Bytes>, order: seq<Name>, created: seq<Name>)
    requires Mountable(files, order, created)
    ensures Swept(Reload(files, order, created)) <==> forall n :: n in files ==> !Hidden(files[n])
  {
    ReloadTells(files, order, created);
    forall n | n in files
      ensures SweptRead(files, n) <==> !Hidden(files[n])
    {
      SettledIsSwept(files[n]);
    }
  }

  /** In good order nothing hides. */
  lemma GoodIsSwept(files: map<Name, Bytes>, order: seq<Name>, created: seq<Name>)
    requires Mountable(files, order, created) && HeadersAgree(Reload(files, order, created))
    ensures Swept(Reload(files, order, created))
  {
    ReloadTells(files, order, created);
    hide SlotOk, HeadersAgree, Swept, Settled, Header.Read, NewFile, NoBoms;
    forall n | n in files
      ensures SweptRead(files, n)
    {
      assert HeaderRead(files, n);
      HiddenDisagrees(files[n]);
      SettledIsSwept(files[n]);
    }
  }

  lemma BomIsNotBlank(file: Bytes, flags: Word)
    requires |file| >= CORPUS_SIZE && file[..4] == [0xEF, 0xBB, 0xBF, 0]
    ensures !Bears(file, [], flags)
  {
    assert file[..4][0] == file[..CORPUS_SIZE][0];
  }

  lemma HiddenDisagrees(file: Bytes)
    requires SlotOk(Settled(file), Read(file).path, Read(file).flags)
    ensures !Hidden(file)
  {
    if Hidden(file) {
      SettledIsSwept(file);
      BomIsNotBlank(file, Read(file).flags);
      assert false;
    }
  }

  const BOM: Path := [0xEF, 0xBB, 0xBF]

  lemma BomReads(file: Bytes, flags: Word)
    requires SlotOk(file, BOM, flags) && Persists(flags)
    ensures Read(file) == Reading([], flags, []) && Settled(file) == file
    ensures |file| > SECTOR_SIZE ==> Hidden(file) && Data(file) != []
  {
    BearerSettles(file, BOM, flags);
    hide Bears, Hidden, Header.Read, Settled;
    SettledIsSwept(file);
  }

  /**
   * One file whose path is a byte order mark: rename takes that name, and after
   * the next start the slot counts as free with everything still in it.
   */
  lemma BomHidesData(file: Bytes, flags: Word, n: Name)
    requires SlotOk(file, BOM, flags) && Persists(flags) && |file| > SECTOR_SIZE
    ensures Mountable(map[n := file], [n], [])
    ensures var r := Reload(map[n := file], [n], []);
            r == OneSlot(n, [], flags, file) && !Swept(r) && Data(file) != []
  {
    BomReads(file, flags);
    hide SlotOk, Hidden, Header.Read, Settled, NewFile;
    assert [n] + [] == [n];
    var r := Reload(map[n := file], [n], []);
    assert r.paths == [[]] && r.flags == [flags];
    hide Reload, Mountable;
    assert !SweptFile(FileOf(r, 0), r.paths[0]);
  }

  function OneSlot(n: Name, path: Path, flags: Word, file: Bytes): (p: Pool)
    ensures Sized(p) && p.names == [n] && FileOf(p, 0) == file
  {
    Pool([n], [path], [flags], map[n := file])
  }

  /** A new path in a pool of one free slot. */
  lemma OneSlotOpens(n: Name, flags: Word, file: Bytes, path: Path, newFlags: Word)
    requires |file| >= SECTOR_SIZE && path != [] && Fits(path) && NulFree(path)
    ensures var q := After(OneSlot(n, [], flags, file), Op.Open(path, newFlags));
            q == OneSlot(n, path, newFlags, Play(file, SetPathCalls(path, newFlags)))
  {
    hide Play, SetPathCalls;
    var r := OneSlot(n, [], flags, file);
    assert FreeSlot(r) == 0 && Find(r, path) < 0;
  }

  /** ... stands for that path with what is in the slot's file. */
  lemma OneSlotHolds(n: Name, flags: Word, file: Bytes, path: Path)
    requires SlotOk(file, path, flags) && path != []
    ensures var q := OneSlot(n, path, flags, file);
            Good(q) && FsOf(q) == map[path := Entry(flags, Data(file))]
  {
    hide SlotOk, Data, MapOf, DistinctPaths;
    assert Slots(OneSlot(n, path, flags, file)) == [Slot(path, Entry(flags, Data(file)))];
    OneBinding(path, Entry(flags, Data(file)));
  }

  /** ... and the next path created there begins with it. */
  lemma HiddenDataComesBack(file: Bytes, flags: Word, n: Name, path: Path, newFlags: Word)
    requires SlotOk(file, BOM, flags) && Persists(flags) && |file| > SECTOR_SIZE
    requires path != [] && Fits(path) && NulFree(path)
    ensures Mountable(map[n := file], [n], [])
    ensures var q := After(Reload(map[n := file], [n], []), Op.Open(path, newFlags));
            Good(q) && FsOf(q) == map[path := Entry(newFlags, Data(file))] && Data(file) != []
  {
    hide SlotOk, Reload, Play, SetPathCalls, Data, MapOf, Swept, DistinctPaths, OneSlot, After, NulFree, Mountable;
    hide HeadersAgree;
    BomHidesData(file, flags, n);
    SetPathSettles(file, path, newFlags);
    assert |file| >= SECTOR_SIZE;
    OneSlotOpens(n, flags, file, path, newFlags);
    OneSlotHolds(n, newFlags, Play(file, SetPathCalls(path, newFlags)), path);
  }

  lemma OneBinding(path: Path, e: Entry)
    requires path != []
    ensures DistinctPaths([Slot(path, e)]) && MapOf([Slot(path, e)]) == map[path := e]
  {
    forall x, f
      ensures Binds(MapOf([Slot(path, e)]), x, f) <==> Binds(map[path := e], x, f)
    {
      MapOfBinds([Slot(path, e)], x, f);
    }
    SameBindings(MapOf([Slot(path, e)]), map[path := e]);
  }

  // -- a crash inside init ---------------------------------------------------------------

  /** Every file has seen a prefix of the calls init makes on it; some may be newly created. */
  ghost predicate InitStopped(files: map<Name, Bytes>, mid: map<Name, Bytes>) {
    && files.Keys <= mid.Keys
    && (forall n :: n in files ==>
          exists k :: 0 <= k <= |Read(files[n]).calls| && mid[n] == Play(files[n], Read(files[n]).calls[..k]))
    && (forall n :: n in mid && n !in files ==>
          exists k :: 0 <= k <= |NewFileCalls()| && mid[n] == Play([], NewFileCalls()[..k]))
  }

  lemma NewFileStopped(k: nat)
    requires k <= |NewFileCalls()|
    ensures var mid := Play([], NewFileCalls()[..k]);
            Read(mid).path == [] && SlotOk(Settled(mid), [], Read(mid).flags) && SweptFile(Settled(mid), [])
  {
    var first, second := Discard().calls, SetPathCalls([], 0);
    DiscardSettles([]);
    if k <= |first| {
      assert (first + second)[..k] == first[..k];
      RecoveryRestarts([], k);
    } else {
      var one := Play([], first);
      assert (first + second)[..k] == first + second[..k - |first|];
      PlayConcat([], first, second[..k - |first|]);
      SetPathInterrupted(one, [], 0, k - |first|);
      BearerSettles(Play(one, second[..k - |first|]), [], 0);
    }
  }

  /** What init finds under a name does not depend on how far an earlier init got. */
  lemma StoppedFileReads(files: map<Name, Bytes>, mid: map<Name, Bytes>, n: Name)
    requires InitStopped(files, mid) && n in mid
    ensures n in files ==> PathIn(mid, n) == PathIn(files, n) && FlagsIn(mid, n) == FlagsIn(files, n)
                           && FileIn(mid, n) == FileIn(files, n)
    ensures n !in files ==> PathIn(mid, n) == [] && SlotOk(FileIn(mid, n), [], FlagsIn(mid, n))
                            && SweptFile(FileIn(mid, n), [])
  {
    if n in files {
      var k :| 0 <= k <= |Read(files[n]).calls| && mid[n] == Play(files[n], Read(files[n]).calls[..k]);
      RecoveryRestarts(files[n], k);
    } else {
      var k :| 0 <= k <= |NewFileCalls()| && mid[n] == Play([], NewFileCalls()[..k]);
      NewFileStopped(k);
    }
  }

  lemma StoppedIsAlike(files: map<Name, Bytes>, mid: map<Name, Bytes>, n: Name)
    requires InitStopped(files, mid)
    ensures Alike(files, mid, n) && Alike(mid, files, n)
    ensures n in mid ==>
              && (HeaderRead(mid, n) <==> n !in files || HeaderRead(files, n))
              && (SweptRead(mid, n) <==> n !in files || SweptRead(files, n))
              && (DecodesRead(mid, n) <==> n !in files || DecodesRead(files, n))
  {
    hide SlotOk, SweptFile, Header.Read, Settled;
    if n in mid {
      StoppedFileReads(files, mid, n);
    }
  }

  /** File by file, the directory an init left behind is as fit as the one it found. */
  lemma StoppedTells(files: map<Name, Bytes>, mid: map<Name, Bytes>)
    requires InitStopped(files, mid)
    ensures forall n :: Alike(files, mid, n) && Alike(mid, files, n)
    ensures (forall n :: n in files ==> HeaderRead(files, n)) <==> (forall n :: n in mid ==> HeaderRead(mid, n))
    ensures (forall n :: n in files ==> SweptRead(files, n)) <==> (forall n :: n in mid ==> SweptRead(mid, n))
    ensures (forall n :: n in files ==> DecodesRead(files, n)) <==> (forall n :: n in mid ==> DecodesRead(mid, n))
  {
    assert forall n :: n in files ==> n in mid;
    hide Alike, HeaderRead, SweptRead, DecodesRead, InitStopped;
    forall n
      ensures Alike(files, mid, n) && Alike(mid, files, n)
      ensures n in mid ==>
                && (HeaderRead(mid, n) <==> n !in files || HeaderRead(files, n))
                && (SweptRead(mid, n) <==> n !in files || SweptRead(files, n))
                && (DecodesRead(mid, n) <==> n !in files || DecodesRead(files, n))
    {
      StoppedIsAlike(files, mid, n);
    }
  }

  /**
   * Stopping init anywhere and running it again: the map, the good order and the
   * empty free slots are what the first run would have given.
   */
  lemma InitRestarts(files: map<Name, Bytes>, order: seq<Name>, created: seq<Name>,
                     mid: map<Name, Bytes>, order': seq<Name>, created': seq<Name>)
    requires Mountable(files, order, created) && Mountable(mid, order', created')
    requires InitStopped(files, mid)
    ensures SameStart(Reload(files, order, created), Reload(mid, order', created'))
  {
    StoppedTells(files, mid);
    ReloadTells(files, order, created);
    ReloadTells(mid, order', created');
    hide HeadersAgree, Swept, NoBoms, Reload, Mountable, DistinctPaths, MapOf, SameByName, InitStopped;
    hide Alike, HeaderRead, SweptRead, DecodesRead;
    AlikeReloads(files, order, created, mid, order', created');
    AlikeReloads(mid, order', created', files, order, created);
    SameEntries(Reload(files, order, created), Reload(mid, order', created'));
  }
}
