/**
 * One pool file of emscripten/opfs-pool.js: the calls an access handle takes,
 * the 4 KiB header, and what #readPath makes of the bytes it finds.
 */
module Header {
  import opened Words
  import opened Digest
  import opened Sequences

  const SECTOR_SIZE := 4096
  const MAX_PATH_SIZE := 512
  const CORPUS_SIZE := 516
  const DIGEST_END := 524

  // -- an access handle: a growable byte sequence ------------------------------

  function Zeros(n: nat): (z: Bytes)
    ensures |z| == n
  {
    seq(n, _ => 0)
  }

  function Resize(file: Bytes, size: nat): Bytes {
    if size <= |file| then file[..size] else file + Zeros(size - |file|)
  }

  function WriteAt(file: Bytes, at: nat, data: Bytes): Bytes {
    var end := at + |data|;
    Resize(file, at) + data + (if end < |file| then file[end..] else [])
  }

  /** Byte k of a file, zero past its end. */
  function ByteAt(file: Bytes, k: nat): Byte { if k < |file| then file[k] else 0 }

  /** now has the data where they were put, however far past the end that was, and every other byte of was. */
  ghost predicate Overwritten(was: Bytes, now: Bytes, at: nat, data: Bytes) {
    && |now| == (if at + |data| < |was| then |was| else at + |data|)
    && forall k: nat :: ByteAt(now, k) == if at <= k < at + |data| then data[k - at] else ByteAt(was, k)
  }

  /** now is was up to its new size, with zeros for what was not there. */
  ghost predicate Recut(was: Bytes, now: Bytes, size: nat) {
    |now| == size && forall k: nat :: ByteAt(now, k) == if k < size then ByteAt(was, k) else 0
  }

  lemma ResizedBytes(file: Bytes, size: nat)
    ensures Recut(file, Resize(file, size), size)
  {}

  lemma WrittenBytes(file: Bytes, at: nat, data: Bytes)
    ensures Overwritten(file, WriteAt(file, at, data), at, data)
  {
    var r, end := WriteAt(file, at, data), at + |data|;
    forall k: nat
      ensures ByteAt(r, k) == if at <= k < end then data[k - at] else ByteAt(file, k)
    {
      if k < at {
        assert r[k] == Resize(file, at)[k];
      } else if k < end {
        assert r[k] == data[k - at];
      } else if k < |file| {
        assert r[k] == file[end..][k - end];
      }
    }
  }

  /** A read gives the bytes there are, and no more than it was asked for. */
  lemma ReadBytes(file: Bytes, at: nat, n: nat)
    ensures |ReadAt(file, at, n)| == if at >= |file| then 0 else if at + n <= |file| then n else |file| - at
    ensures forall k :: 0 <= k < |ReadAt(file, at, n)| ==>
              at + k < |file| && ReadAt(file, at, n)[k] == file[at + k]
  {}

  /** What a read into an n-byte buffer gets, short at the end of the file. */
  function ReadAt(file: Bytes, at: nat, n: nat): (r: Bytes)
    ensures |r| <= n
  {
    if at >= |file| then [] else if at + n <= |file| then file[at..at + n] else file[at..]
  }

  datatype Call = Write(at: nat, data: Bytes) | Truncate(size: nat) | Flush

  function Do(file: Bytes, c: Call): Bytes {
    match c
    case Write(at, data) => WriteAt(file, at, data)
    case Truncate(size) => Resize(file, size)
    case Flush => file
  }

  function Play(file: Bytes, calls: seq<Call>): Bytes
    decreases |calls|
  {
    if calls == [] then file else Play(Do(file, calls[0]), calls[1..])
  }

  // -- the header -------------------------------------------------------------

  predicate NulFree(s: Bytes) {
    forall i :: 0 <= i < |s| ==> s[i] != 0
  }

  function Be32(w: Word): Bytes {
    [w / 0x100 / 0x100 / 0x100, w / 0x100 / 0x100 % 0x100, w / 0x100 % 0x100, w % 0x100]
  }

  function FromBe32(b: Bytes): Word
    requires |b| == 4
  {
    (b[0] as int) * 0x100_0000 + (b[1] as int) * 0x1_0000 + (b[2] as int) * 0x100 + (b[3] as int)
  }

  function Le32(w: Word): Bytes {
    [w % 0x100, w / 0x100 % 0x100, w / 0x100 / 0x100 % 0x100, w / 0x100 / 0x100 / 0x100]
  }

  /** The digest as the eight bytes of a Uint32Array. */
  function DigestBytes(corpus: Bytes): (d: Bytes)
    requires |corpus| > 0
    ensures |d| == 8
  {
    var h := DigestOf(corpus);
    Le32(h.h1) + Le32(h.h2)
  }

  /** Paths of 512 bytes and more do not fit. */
  predicate Fits(path: Path) { |path| < MAX_PATH_SIZE }

  function Corpus(path: Path, flags: Word): (c: Bytes)
    requires Fits(path)
    ensures |c| == CORPUS_SIZE
  {
    path + Zeros(MAX_PATH_SIZE - |path|) + Be32(flags)
  }

  /** What #setPath does to the file. */
  function SetPathCalls(path: Path, flags: Word): seq<Call>
    requires Fits(path)
  {
    var corpus := Corpus(path, flags);
    [Write(0, corpus), Write(CORPUS_SIZE, DigestBytes(corpus)), Flush]
    + if path == [] then [Truncate(SECTOR_SIZE)] else []
  }

  /** SQLITE_OPEN_DELETEONCLOSE */
  predicate DeleteOnClose(flags: Word) { BitSet(flags, 3) }

  /** One of the kinds that outlive a session: MAIN_DB, MAIN_JOURNAL, SUPER_JOURNAL, WAL. */
  predicate PersistentType(flags: Word) {
    BitSet(flags, 8) || BitSet(flags, 11) || BitSet(flags, 14) || BitSet(flags, 19)
  }

  predicate Persists(flags: Word) { PersistentType(flags) && !DeleteOnClose(flags) }

  /** The bits, written out: not 0x8, and one of 0x100, 0x800, 0x4000 and 0x80000. */
  lemma PersistsBits(flags: Word)
    ensures Persists(flags) <==>
            && flags / 0x8 % 2 == 0
            && (flags / 0x100 % 2 == 1 || flags / 0x800 % 2 == 1 || flags / 0x4000 % 2 == 1 || flags / 0x80000 % 2 == 1)
  {
    ShrDivides(flags, 3);
    ShrDivides(flags, 8);
    ShrDivides(flags, 11);
    ShrDivides(flags, 14);
    ShrDivides(flags, 19);
    assert Pow2(3) == 0x8 && Pow2(8) == 0x100 && Pow2(11) == 0x800 && Pow2(14) == 0x4000;
    assert Pow2(19) == 0x20 * Pow2(14);
  }

  /** TextDecoder drops a leading byte order mark. */
  predicate HasBom(s: Bytes) { |s| >= 3 && s[..3] == [0xEF, 0xBB, 0xBF] }

  function Decode(s: Bytes): Path { if HasBom(s) then s[3..] else s }

  /** What #readPath learns from one file, and what it does to it. */
  datatype Reading = Reading(path: Path, flags: Word, calls: seq<Call>)

  function Discard(): Reading { Reading([], 0, SetPathCalls([], 0)) }

  /** The eight bytes of the stored digest; the buffer is zero where the file ends before it. */
  function StoredDigest(file: Bytes): (d: Bytes)
    ensures |d| == 8
  {
    var got := ReadAt(file, CORPUS_SIZE, 8);
    got + Zeros(8 - |got|)
  }

  function Read(file: Bytes): Reading {
    if |file| < CORPUS_SIZE then Discard()
    else
      var corpus := file[..CORPUS_SIZE];
      var flags := FromBe32(corpus[MAX_PATH_SIZE..]);
      var end := IndexOf(corpus, 0, 0);
      if corpus[0] != 0 && !Persists(flags) then Discard()
      else if StoredDigest(file) != DigestBytes(corpus) then Discard()
      else if end == 0 then Reading([], flags, [Truncate(SECTOR_SIZE)])
      // subarray(0, -1), the answer when no byte is zero, leaves the last byte out
      else Reading(Decode(corpus[..if end < 0 then CORPUS_SIZE - 1 else end]), flags, [])
  }

  /** The file once #readPath is done with it. */
  function Settled(file: Bytes): Bytes { Play(file, Read(file).calls) }

  // -- slots in good order -----------------------------------------------------

  /** The file starts with the corpus of this path; the digest may be anything. */
  predicate Bears(file: Bytes, path: Path, flags: Word) {
    |file| >= SECTOR_SIZE && Fits(path) && NulFree(path) && file[..CORPUS_SIZE] == Corpus(path, flags)
  }

  /** Header and digest agree. */
  predicate SlotOk(file: Bytes, path: Path, flags: Word) {
    Bears(file, path, flags) && file[CORPUS_SIZE..DIGEST_END] == DigestBytes(Corpus(path, flags))
  }

  /** A free slot with nothing left in it. */
  predicate SweptFile(file: Bytes, path: Path) { path == [] ==> |file| == SECTOR_SIZE }

  /** What lies behind the first sector. */
  function Data(file: Bytes): Bytes {
    if |file| >= SECTOR_SIZE then file[SECTOR_SIZE..] else []
  }

  lemma FlagsRoundTrip(flags: Word)
    ensures FromBe32(Be32(flags)) == flags
  {
    var a, b, c := flags / 0x100, flags / 0x100 / 0x100, flags / 0x100 / 0x100 / 0x100;
    assert flags == a * 0x100 + flags % 0x100 && a == b * 0x100 + a % 0x100 && b == c * 0x100 + b % 0x100;
  }

  /** What the corpus of a path says: where it ends, its flags, and whether it is empty. */
  lemma CorpusReads(path: Path, flags: Word)
    requires Fits(path) && NulFree(path)
    ensures var c := Corpus(path, flags);
            && IndexOf(c, 0, 0) == |path| && c[..|path|] == path
            && FromBe32(c[MAX_PATH_SIZE..]) == flags
            && (c[0] == 0 <==> path == [])
  {
    var c := Corpus(path, flags);
    assert c[|path|] == 0;
    FirstIs(c, 0, 0, |path|);
    assert c[MAX_PATH_SIZE..] == Be32(flags);
    FlagsRoundTrip(flags);
  }

  /** Any file that bears a corpus reads as that path or as nothing. */
  lemma BearerReads(file: Bytes, path: Path, flags: Word)
    requires Bears(file, path, flags)
    ensures var good := file[CORPUS_SIZE..DIGEST_END] == DigestBytes(Corpus(path, flags));
            Read(file) ==
            if path == [] && good then Reading([], flags, [Truncate(SECTOR_SIZE)])
            else if path != [] && good && Persists(flags) then Reading(Decode(path), flags, [])
            else Discard()
  {
    CorpusReads(path, flags);
    assert StoredDigest(file) == ReadAt(file, CORPUS_SIZE, 8) == file[CORPUS_SIZE..DIGEST_END];
  }

  /** Writing a header of at most a sector leaves everything after it alone. */
  lemma WriteInside(file: Bytes, at: nat, data: Bytes)
    requires at + |data| <= |file|
    ensures var r := WriteAt(file, at, data);
            && |r| == |file|
            && r[..at] == file[..at] && r[at..at + |data|] == data && r[at + |data|..] == file[at + |data|..]
  {}

  lemma WriteHeader(file: Bytes, path: Path, flags: Word)
    requires |file| >= SECTOR_SIZE && Fits(path) && NulFree(path)
    ensures var one := WriteAt(file, 0, Corpus(path, flags));
            var two := WriteAt(one, CORPUS_SIZE, DigestBytes(Corpus(path, flags)));
            && Bears(one, path, flags) && one[CORPUS_SIZE..] == file[CORPUS_SIZE..]
            && Bears(two, path, flags) && two[DIGEST_END..] == file[DIGEST_END..] && |two| == |file|
            && two[CORPUS_SIZE..DIGEST_END] == DigestBytes(Corpus(path, flags))
  {
    var c := Corpus(path, flags);
    var one := WriteAt(file, 0, c);
    WriteInside(file, 0, c);
    WriteInside(one, CORPUS_SIZE, DigestBytes(c));
    assert one[..CORPUS_SIZE] == c;
  }

  /** Four calls at most, spelled out. */
  lemma PlaySetPath(file: Bytes, path: Path, flags: Word)
    requires Fits(path)
    ensures var one := WriteAt(file, 0, Corpus(path, flags));
            var two := WriteAt(one, CORPUS_SIZE, DigestBytes(Corpus(path, flags)));
            var calls := SetPathCalls(path, flags);
            && Play(file, calls) == (if path == [] then Resize(two, SECTOR_SIZE) else two)
            && Play(file, calls[..0]) == file
            && Play(file, calls[..1]) == one
            && Play(file, calls[..2]) == two
            && Play(file, calls[..3]) == two
  {
    hide DigestBytes, DigestOf, Corpus, WriteAt;
    var calls := SetPathCalls(path, flags);
    var one := WriteAt(file, 0, Corpus(path, flags));
    var two := WriteAt(one, CORPUS_SIZE, DigestBytes(Corpus(path, flags)));
    assert calls[..1] == [calls[0]];
    assert calls[..2] == [calls[0], calls[1]];
    assert calls[..3] == [calls[0], calls[1], calls[2]];
    PlayFront(file, calls[0], []);
    PlayFront(file, calls[0], [calls[1]]);
    PlayFront(one, calls[1], []);
    PlayFront(file, calls[0], [calls[1], calls[2]]);
    PlayFront(one, calls[1], [calls[2]]);
    PlayFront(two, calls[2], []);
    PlayFront(file, calls[0], calls[1..]);
    PlayFront(one, calls[1], calls[2..]);
    PlayFront(two, calls[2], calls[3..]);
    if path == [] {
      PlayFront(two, calls[3], []);
      assert calls[3..] == [calls[3]] + [];
    }
    assert calls[2..] == [calls[2]] + calls[3..] && calls[1..] == [calls[1]] + calls[2..];
    assert calls == [calls[0]] + calls[1..];
  }

  /** The file after the first k calls. */
  lemma SetPathStage(file: Bytes, path: Path, flags: Word, k: nat)
    requires Fits(path) && k <= |SetPathCalls(path, flags)|
    ensures var one := WriteAt(file, 0, Corpus(path, flags));
            var two := WriteAt(one, CORPUS_SIZE, DigestBytes(Corpus(path, flags)));
            Play(file, SetPathCalls(path, flags)[..k]) ==
            if k == 0 then file else if k == 1 then one
            else if k <= 3 then two else Resize(two, SECTOR_SIZE)
    ensures k <= 3 || path == []
  {
    var calls := SetPathCalls(path, flags);
    assert |calls| == (if path == [] then 4 else 3) && calls[..|calls|] == calls;
    hide Corpus, DigestBytes, Play, WriteAt, SetPathCalls, DigestOf;
    PlaySetPath(file, path, flags);
    if k == 0 {} else if k == 1 {} else if k == 2 {} else if k == 3 {} else { assert k == 4; }
  }

  lemma PlayFront(file: Bytes, c: Call, rest: seq<Call>)
    ensures Play(file, [c] + rest) == Play(Do(file, c), rest)
  {
    assert ([c] + rest)[1..] == rest;
  }

  /** A completed #setPath leaves the slot in good order and, unless it frees it, its data alone. */
  lemma SetPathSettles(file: Bytes, path: Path, flags: Word)
    requires |file| >= SECTOR_SIZE && Fits(path) && NulFree(path)
    ensures var r := Play(file, SetPathCalls(path, flags));
            && SlotOk(r, path, flags) && SweptFile(r, path)
            && (path != [] ==> Data(r) == Data(file))
  {
    hide Corpus, DigestBytes, Play, WriteAt, SetPathCalls, NulFree;
    PlaySetPath(file, path, flags);
    WriteHeader(file, path, flags);
    var one := WriteAt(file, 0, Corpus(path, flags));
    var two := WriteAt(one, CORPUS_SIZE, DigestBytes(Corpus(path, flags)));
    if path == [] {
      HeaderSurvivesResize(two);
    } else {
      DataBehind(two, file, DIGEST_END);
    }
  }

  /** Byte by byte, what #setPath leaves. */
  lemma SetPathBytes(file: Bytes, path: Path, flags: Word)
    requires |file| >= SECTOR_SIZE && Fits(path)
    ensures var r, c := Play(file, SetPathCalls(path, flags)), Corpus(path, flags);
            && |r| == (if path == [] then SECTOR_SIZE else |file|)
            && forall k: nat :: k < |r| ==>
                 r[k] == if k < CORPUS_SIZE then c[k]
                         else if k < DIGEST_END then DigestBytes(c)[k - CORPUS_SIZE] else file[k]
  {
    var c := Corpus(path, flags);
    var one := WriteAt(file, 0, c);
    var two := WriteAt(one, CORPUS_SIZE, DigestBytes(c));
    hide Play, SetPathCalls, WriteAt, DigestOf, Resize, DigestBytes, Corpus;
    PlaySetPath(file, path, flags);
    WrittenBytes(file, 0, c);
    WrittenBytes(one, CORPUS_SIZE, DigestBytes(c));
    ResizedBytes(two, SECTOR_SIZE);
    hide Overwritten;
    assert |two| == |file| by { SetPathLength(one, two, c, DigestBytes(c), file); }
    var r := Play(file, SetPathCalls(path, flags));
    forall k: nat | k < |r|
      ensures r[k] ==
              if k < CORPUS_SIZE then c[k] else if k < DIGEST_END then DigestBytes(c)[k - CORPUS_SIZE] else file[k]
    {
      SetPathByte(one, two, c, DigestBytes(c), file, k);
      assert r[k] == ByteAt(r, k) == ByteAt(two, k);
    }
  }

  lemma SetPathLength(one: Bytes, two: Bytes, c: Bytes, d: Bytes, file: Bytes)
    requires Overwritten(file, one, 0, c) && Overwritten(one, two, |c|, d) && |c| + |d| <= |file|
    ensures |two| == |file|
  {}

  lemma SetPathByte(one: Bytes, two: Bytes, c: Bytes, d: Bytes, file: Bytes, k: nat)
    requires Overwritten(file, one, 0, c) && Overwritten(one, two, |c|, d)
    ensures ByteAt(two, k) == if k < |c| then c[k] else if k < |c| + |d| then d[k - |c|] else ByteAt(file, k)
  {}

  /** Where #setPath puts what: path, zeros, flags and digest, with the data from byte 4096 on. */
  lemma HeaderLayout(file: Bytes, path: Path, flags: Word)
    requires |file| >= 4096 && |path| < 512
    ensures var r := Play(file, SetPathCalls(path, flags));
            && |r| == (if path == [] then 4096 else |file|)
            && (forall k: nat :: k < 512 ==> r[k] == ByteAt(path, k))
            && r[512] == flags / 0x100_0000 && r[513] == flags / 0x1_0000 % 0x100
            && r[514] == flags / 0x100 % 0x100 && r[515] == flags % 0x100
            && (forall k: nat :: 524 <= k < |r| ==> r[k] == file[k])
    ensures var r := Play(file, SetPathCalls(path, flags));
            var h := DigestOf(r[..516]);
            && r[516] == h.h1 % 0x100 && r[517] == h.h1 / 0x100 % 0x100
            && r[518] == h.h1 / 0x1_0000 % 0x100 && r[519] == h.h1 / 0x100_0000
            && r[520] == h.h2 % 0x100 && r[521] == h.h2 / 0x100 % 0x100
            && r[522] == h.h2 / 0x1_0000 % 0x100 && r[523] == h.h2 / 0x100_0000
    // both parts of the header are written and flushed before anything is cut off
    ensures var calls := SetPathCalls(path, flags);
            && |calls| == (if path == [] then 4 else 3) && calls[0].Write? && calls[1].Write? && calls[2] == Flush
            && (path == [] ==> calls[3] == Truncate(4096))
  {
    hide Play, DigestOf, DigestBytes, Corpus;
    var c := Corpus(path, flags);
    SetPathBytes(file, path, flags);
    CorpusLayout(path, flags);
    DigestLayout(c);
    var r := Play(file, SetPathCalls(path, flags));
    assert r[..516] == c;
  }

  lemma CorpusLayout(path: Path, flags: Word)
    requires |path| < 512
    ensures var c := Corpus(path, flags);
            && (forall k: nat :: k < 512 ==> c[k] == ByteAt(path, k))
            && c[512] == flags / 0x100_0000 && c[513] == flags / 0x1_0000 % 0x100
            && c[514] == flags / 0x100 % 0x100 && c[515] == flags % 0x100
  {
    Quarters(flags);
    var c := Corpus(path, flags);
    assert c[512..] == Be32(flags);
    assert forall k :: 0 <= k < 4 ==> c[512 + k] == c[512..][k];
    forall k: nat | k < 512
      ensures c[k] == ByteAt(path, k)
    {}
  }

  lemma Quarters(w: Word)
    ensures w / 0x100 / 0x100 == w / 0x1_0000 && w / 0x100 / 0x100 / 0x100 == w / 0x100_0000
  {
    var q := w / 0x100;
    var p := q / 0x100;
    assert w == q * 0x100 + w % 0x100 && q == p * 0x100 + q % 0x100;
    assert w == p * 0x1_0000 + (q % 0x100 * 0x100 + w % 0x100);
    assert p == (p / 0x100) * 0x100 + p % 0x100;
  }

  lemma DigestLayout(c: Bytes)
    requires |c| > 0
    ensures var h, d := DigestOf(c), DigestBytes(c);
            && d[0] == h.h1 % 0x100 && d[1] == h.h1 / 0x100 % 0x100
            && d[2] == h.h1 / 0x1_0000 % 0x100 && d[3] == h.h1 / 0x100_0000
            && d[4] == h.h2 % 0x100 && d[5] == h.h2 / 0x100 % 0x100
            && d[6] == h.h2 / 0x1_0000 % 0x100 && d[7] == h.h2 / 0x100_0000
  {
    hide DigestOf;
    Quarters(DigestOf(c).h1);
    Quarters(DigestOf(c).h2);
  }

  /** Cutting a file to a sector keeps its header. */
  lemma HeaderSurvivesResize(file: Bytes)
    requires |file| >= DIGEST_END
    ensures var r := Resize(file, SECTOR_SIZE);
            && |r| == SECTOR_SIZE && r[..DIGEST_END] == file[..DIGEST_END]
            && r[..CORPUS_SIZE] == file[..CORPUS_SIZE]
            && r[CORPUS_SIZE..DIGEST_END] == file[CORPUS_SIZE..DIGEST_END]
  {}

  /** Files that agree from somewhere inside the first sector have the same data. */
  lemma DataBehind(a: Bytes, b: Bytes, from: nat)
    requires |a| >= SECTOR_SIZE && |b| >= SECTOR_SIZE && from <= SECTOR_SIZE && a[from..] == b[from..]
    ensures Data(a) == Data(b)
  {
    assert a[from..][SECTOR_SIZE - from..] == a[SECTOR_SIZE..];
    assert b[from..][SECTOR_SIZE - from..] == b[SECTOR_SIZE..];
  }

  /** Discarding works on any file, whatever its length. */
  lemma DiscardSettles(file: Bytes)
    ensures SlotOk(Play(file, Discard().calls), [], 0) && SweptFile(Play(file, Discard().calls), [])
  {
    hide DigestBytes, DigestOf;
    var c := Corpus([], 0);
    var one := WriteAt(file, 0, c);
    var two := WriteAt(one, CORPUS_SIZE, DigestBytes(c));
    PlaySetPath(file, [], 0);
    assert one[..CORPUS_SIZE] == c;
    WriteInsideOrExtends(one, DigestBytes(c));
    var r := Resize(two, SECTOR_SIZE);
    assert r[..CORPUS_SIZE] == two[..CORPUS_SIZE];
    assert r[CORPUS_SIZE..DIGEST_END] == two[CORPUS_SIZE..DIGEST_END];
  }

  lemma WriteInsideOrExtends(file: Bytes, d: Bytes)
    requires |file| >= CORPUS_SIZE && |d| == 8
    ensures var r := WriteAt(file, CORPUS_SIZE, d);
            && |r| >= DIGEST_END
            && r[..CORPUS_SIZE] == file[..CORPUS_SIZE] && r[CORPUS_SIZE..DIGEST_END] == d
  {}

  /**
   * The header round trip. A slot written with a path reads back as that path
   * exactly when its flags persist and the path does not start with a byte
   * order mark, which TextDecoder swallows; a free slot reads back as free and
   * loses whatever was left in it.
   */
  lemma HeaderRoundTrip(file: Bytes, path: Path, flags: Word)
    requires SlotOk(file, path, flags)
    ensures path == [] ==> Read(file).path == [] && Settled(file) == Resize(file, SECTOR_SIZE)
    ensures path != [] ==> (Read(file).path == path <==> Persists(flags) && !HasBom(path))
    ensures path != [] && Read(file).path == path ==> Read(file).flags == flags && Settled(file) == file
    ensures path != [] && !Persists(flags) ==>
              Read(file).path == [] && SlotOk(Settled(file), [], 0) && SweptFile(Settled(file), [])
  {
    BearerReads(file, path, flags);
    DiscardSettles(file);
    OneTruncate(file);
  }

  /** The file has a header that #readPath accepts and keeps: used, persistent, and with its digest. */
  predicate Accepted(file: Bytes, path: Path, flags: Word)
    requires Bears(file, path, flags)
  {
    path != [] && Persists(flags) && file[CORPUS_SIZE..DIGEST_END] == DigestBytes(Corpus(path, flags))
  }

  /** A file that bears a path and is then read is kept as it is, or becomes a free slot with nothing in it. */
  lemma BearerSettles(file: Bytes, path: Path, flags: Word)
    requires Bears(file, path, flags)
    ensures var r := Read(file);
            if Accepted(file, path, flags)
            then r == Reading(Decode(path), flags, []) && Settled(file) == file && SlotOk(file, path, flags)
            else r.path == [] && SlotOk(Settled(file), [], r.flags) && SweptFile(Settled(file), [])
  {
    assert Play(file, []) == file;
    hide Corpus, DigestBytes, NulFree, Play, SetPathCalls, DigestOf;
    BearerReads(file, path, flags);
    DiscardSettles(file);
    if path == [] {
      OneTruncate(file);
      HeaderSurvivesResize(file);
    }
  }

  /** Stopping #setPath between any two calls: untouched, or bearing the new path over the same data. */
  lemma SetPathInterrupted(file: Bytes, path: Path, flags: Word, k: nat)
    requires |file| >= SECTOR_SIZE && Fits(path) && NulFree(path)
    requires k <= |SetPathCalls(path, flags)|
    ensures var mid := Play(file, SetPathCalls(path, flags)[..k]);
            if k == 0 then mid == file
            else Bears(mid, path, flags) && (path != [] ==> Data(mid) == Data(file))
  {
    SetPathStage(file, path, flags, k);
    hide Corpus, DigestBytes, Play, WriteAt, SetPathCalls, NulFree, DigestOf;
    WriteHeader(file, path, flags);
    var one := WriteAt(file, 0, Corpus(path, flags));
    var two := WriteAt(one, CORPUS_SIZE, DigestBytes(Corpus(path, flags)));
    DataBehind(one, file, CORPUS_SIZE);
    DataBehind(two, file, DIGEST_END);
    HeaderSurvivesResize(two);
  }

  /** Reading only looks at the corpus and the stored digest. */
  lemma ReadLooksAtHeader(a: Bytes, b: Bytes)
    requires |a| >= CORPUS_SIZE && |b| >= CORPUS_SIZE
    requires a[..CORPUS_SIZE] == b[..CORPUS_SIZE] && StoredDigest(a) == StoredDigest(b)
    ensures Read(a) == Read(b)
  {}

  /** Cutting a file to a sector, or extending it to one, changes neither. */
  lemma SectorKeepsHeader(file: Bytes)
    requires |file| >= CORPUS_SIZE
    ensures var r := Resize(file, SECTOR_SIZE);
            && |r| == SECTOR_SIZE && r[..CORPUS_SIZE] == file[..CORPUS_SIZE] && StoredDigest(r) == StoredDigest(file)
  {
    var r := Resize(file, SECTOR_SIZE);
    assert forall i :: 0 <= i < 8 ==>
        StoredDigest(file)[i] == if CORPUS_SIZE + i < |file| then file[CORPUS_SIZE + i] else 0;
    assert forall i :: 0 <= i < 8 ==> StoredDigest(r)[i] == r[CORPUS_SIZE + i];
  }

  /** Stopping the recovery of a file between any two of its calls and starting over ends the same way. */
  lemma RecoveryRestarts(file: Bytes, k: nat)
    requires k <= |Read(file).calls|
    ensures var mid := Play(file, Read(file).calls[..k]);
            && Read(mid).path == Read(file).path && Read(mid).flags == Read(file).flags
            && Settled(mid) == Settled(file)
  {
    var calls := Read(file).calls;
    if k == 0 {
      assert calls[..0] == [];
    } else if Read(file) == Discard() {
      DiscardRestarts(file, k);
    } else {
      var mid := Resize(file, SECTOR_SIZE);
      assert calls == [Truncate(SECTOR_SIZE)] && calls[..1] == calls;
      OneTruncate(file);
      OneTruncate(mid);
      SectorKeepsHeader(file);
      ReadLooksAtHeader(file, mid);
    }
  }

  lemma DiscardRestarts(file: Bytes, k: nat)
    requires 0 < k <= |Discard().calls|
    ensures var mid := Play(file, Discard().calls[..k]);
            && Read(mid).path == [] && Read(mid).flags == 0
            && Settled(mid) == Play(file, Discard().calls)
  {
    hide Corpus, DigestBytes, DigestOf, Play, SetPathCalls, WriteAt, Read, Resize;
    SetPathStage(file, [], 0, k);
    if k == 1 {
      CorpusAloneRestarts(file);
    } else {
      BlankRestarts(file);
    }
  }

  /** Once the digest is written too, reading again only has to cut what is left. */
  lemma BlankRestarts(file: Bytes)
    ensures var one := WriteAt(file, 0, Corpus([], 0));
            var two := WriteAt(one, CORPUS_SIZE, DigestBytes(Corpus([], 0)));
            var cut := Resize(two, SECTOR_SIZE);
            && Play(file, Discard().calls) == cut
            && Read(two).path == Read(cut).path == [] && Read(two).flags == Read(cut).flags == 0
            && Settled(two) == Settled(cut) == cut
  {
    hide Corpus, DigestBytes, DigestOf, Play, SetPathCalls, WriteAt, Read;
    var one := WriteAt(file, 0, Corpus([], 0));
    var two := WriteAt(one, CORPUS_SIZE, DigestBytes(Corpus([], 0)));
    var cut := Resize(two, SECTOR_SIZE);
    PlaySetPath(file, [], 0);
    StartsBlank(file);
    SectorKeepsHeader(two);
    BlankReads(two);
    BlankReads(cut);
    OneTruncate(two);
    OneTruncate(cut);
  }

  lemma CorpusAloneRestarts(file: Bytes)
    ensures var one := WriteAt(file, 0, Corpus([], 0));
            && Read(one).path == [] && Read(one).flags == 0
            && Settled(one) == Play(file, Discard().calls)
  {
    var c := Corpus([], 0);
    var one := WriteAt(file, 0, c);
    PlaySetPath(file, [], 0);
    StartsBlank(file);
    hide Corpus, DigestBytes, DigestOf, Play, SetPathCalls, WriteAt, Read;
    BlankReads(one);
    if StoredDigest(one) == DigestBytes(c) {
      BlankDigest();
      RewriteChangesNothing(one, DigestBytes(c));
      OneTruncate(one);
    } else {
      PlaySetPath(one, [], 0);
    }
  }

  lemma StartsBlank(file: Bytes)
    ensures var c := Corpus([], 0);
            var one := WriteAt(file, 0, c);
            var two := WriteAt(one, CORPUS_SIZE, DigestBytes(c));
            && |one| >= CORPUS_SIZE && one[..CORPUS_SIZE] == c && WriteAt(one, 0, c) == one
            && |two| >= DIGEST_END && two[..CORPUS_SIZE] == c && StoredDigest(two) == DigestBytes(c)
  {
    hide DigestBytes, DigestOf;
    var c := Corpus([], 0);
    hide Corpus;
    WriteInsideOrExtends(WriteAt(file, 0, c), DigestBytes(c));
  }

  lemma RewriteChangesNothing(file: Bytes, d: Bytes)
    requires |d| == 8 && d[7] != 0 && StoredDigest(file) == d
    ensures WriteAt(file, CORPUS_SIZE, d) == file
  {
    assert |ReadAt(file, CORPUS_SIZE, 8)| == 8;
  }

  /** The digest of a free slot does not end in zeros, so all of it has to be there. */
  lemma BlankDigest()
    ensures DigestBytes(Corpus([], 0))[7] == 0xac
  {
    assert Corpus([], 0)[0] == 0;
  }

  lemma OneTruncate(file: Bytes)
    ensures Play(file, [Truncate(SECTOR_SIZE)]) == Resize(file, SECTOR_SIZE)
  {
    PlayFront(file, Truncate(SECTOR_SIZE), []);
    assert [Truncate(SECTOR_SIZE)] + [] == [Truncate(SECTOR_SIZE)];
  }

  /** A file that starts with the blank corpus, however long it is. */
  lemma BlankReads(file: Bytes)
    requires |file| >= CORPUS_SIZE && file[..CORPUS_SIZE] == Corpus([], 0)
    ensures Read(file) == if StoredDigest(file) == DigestBytes(Corpus([], 0))
                          then Reading([], 0, [Truncate(SECTOR_SIZE)]) else Discard()
  {
    hide DigestBytes;
    CorpusReads([], 0);
  }

  lemma Le32Injective(a: Word, b: Word)
    requires Le32(a) == Le32(b)
    ensures a == b
  {
    FlagsRoundTrip(a);
    FlagsRoundTrip(b);
    assert Be32(a) == [Le32(a)[3], Le32(a)[2], Le32(a)[1], Le32(a)[0]];
    assert Be32(b) == [Le32(b)[3], Le32(b)[2], Le32(b)[1], Le32(b)[0]];
  }

  lemma DigestBytesInjective(a: Bytes, b: Bytes)
    requires |a| > 0 && |b| > 0 && DigestBytes(a) == DigestBytes(b)
    ensures DigestOf(a) == DigestOf(b)
  {
    assert Le32(DigestOf(a).h1) == DigestBytes(a)[..4] && Le32(DigestOf(a).h2) == DigestBytes(a)[4..];
    assert Le32(DigestOf(b).h1) == DigestBytes(b)[..4] && Le32(DigestOf(b).h2) == DigestBytes(b)[4..];
    Le32Injective(DigestOf(a).h1, DigestOf(b).h1);
    Le32Injective(DigestOf(a).h2, DigestOf(b).h2);
  }

  /**
   * One wrong byte anywhere in a header makes the file answer to some path only
   * if it is the first byte of a free slot's, whose flags persist, and if the
   * corpus with that byte has the digest every free slot has.
   */
  lemma OneByteNeverMisbinds(file: Bytes, path: Path, flags: Word, k: nat, v: Byte)
    requires SlotOk(file, path, flags)
    requires k < DIGEST_END && file[k] != v
    ensures Read(file[k := v]).path != [] <==>
            && path == [] && k == 0 && Persists(flags)
            && DigestOf(Corpus([], flags)[0 := v]) == DigestOf(Corpus([], flags))
    ensures Read(file[k := v]).path != [] ==> Read(file[k := v]).path == [v]
  {
    hide Corpus, DigestBytes, DigestOf, NulFree, SetPathCalls;
    var bad := file[k := v];
    var c, c' := file[..CORPUS_SIZE], bad[..CORPUS_SIZE];
    CorpusReads(path, flags);
    assert StoredDigest(bad) == ReadAt(bad, CORPUS_SIZE, 8) == bad[CORPUS_SIZE..DIGEST_END];
    if k >= CORPUS_SIZE {
      assert c' == c;
      assert bad[CORPUS_SIZE..DIGEST_END][k - CORPUS_SIZE] == v;
      assert file[CORPUS_SIZE..DIGEST_END][k - CORPUS_SIZE] == file[k];
    } else {
      assert c' == c[k := v];
      assert bad[CORPUS_SIZE..DIGEST_END] == file[CORPUS_SIZE..DIGEST_END];
      if c'[0] == 0 {
        FirstIs(c', 0, 0, 0);
      } else if path == [] {
        FirstByteOfFree(file, flags, v);
      } else if DigestBytes(c') == DigestBytes(c) {
        DigestBytesInjective(c, c');
        SingleByteChangeDetected(c, k, v);
      }
    }
  }

  /** A free slot whose first byte is wrong: what the digest of that corpus says decides. */
  lemma FirstByteOfFree(file: Bytes, flags: Word, v: Byte)
    requires SlotOk(file, [], flags) && v != 0
    ensures var c := Corpus([], flags);
            Read(file[0 := v]).path ==
            if Persists(flags) && DigestOf(c[0 := v]) == DigestOf(c) then [v] else []
  {
    var c, bad := Corpus([], flags), file[0 := v];
    var c' := c[0 := v];
    CorpusReads([], flags);
    hide DigestBytes, DigestOf, SetPathCalls, Persists;
    assert bad[..CORPUS_SIZE] == c' && c'[MAX_PATH_SIZE..] == c[MAX_PATH_SIZE..];
    assert StoredDigest(bad) == bad[CORPUS_SIZE..DIGEST_END] == file[CORPUS_SIZE..DIGEST_END];
    assert c'[1] == 0;
    FirstIs(c', 0, 0, 1);
    SameDigestBytes(c, c');
    assert c'[..1] == [v];
  }

  lemma SameDigestBytes(a: Bytes, b: Bytes)
    requires |a| > 0 && |b| > 0
    ensures DigestBytes(a) == DigestBytes(b) <==> DigestOf(a) == DigestOf(b)
  {
    if DigestBytes(a) == DigestBytes(b) {
      DigestBytesInjective(a, b);
    }
  }

  /** A write behind the header touches the data only, and as a write to the data would. */
  lemma WriteBehindHeader(file: Bytes, off: nat, data: Bytes)
    requires |file| >= SECTOR_SIZE
    ensures var r := Do(file, Write(SECTOR_SIZE + off, data));
            && |r| >= SECTOR_SIZE && r[..SECTOR_SIZE] == file[..SECTOR_SIZE]
            && Data(r) == WriteAt(Data(file), off, data)
  {
    var r := WriteAt(file, SECTOR_SIZE + off, data);
    var end := off + |data|;
    assert |Data(file)| == |file| - SECTOR_SIZE;
    assert Resize(file, SECTOR_SIZE + off)[SECTOR_SIZE..] == Resize(Data(file), off);
    if SECTOR_SIZE + end < |file| {
      assert file[SECTOR_SIZE + end..] == Data(file)[end..];
    }
  }

  lemma ResizeBehindHeader(file: Bytes, size: nat)
    requires |file| >= SECTOR_SIZE
    ensures var r := Do(file, Truncate(SECTOR_SIZE + size));
            && |r| >= SECTOR_SIZE && r[..SECTOR_SIZE] == file[..SECTOR_SIZE]
            && Data(r) == Resize(Data(file), size)
  {}

  lemma HeaderKeptKeepsSlot(a: Bytes, b: Bytes, path: Path, flags: Word)
    requires SlotOk(a, path, flags)
    requires |b| >= SECTOR_SIZE && b[..SECTOR_SIZE] == a[..SECTOR_SIZE]
    ensures SlotOk(b, path, flags)
  {
    hide Corpus, DigestBytes, NulFree;
    assert b[..CORPUS_SIZE] == b[..SECTOR_SIZE][..CORPUS_SIZE] == a[..CORPUS_SIZE];
    assert b[CORPUS_SIZE..DIGEST_END] == b[..SECTOR_SIZE][CORPUS_SIZE..DIGEST_END] == a[CORPUS_SIZE..DIGEST_END];
  }

  lemma ReadBehindHeader(file: Bytes, off: nat, n: nat)
    requires |file| >= SECTOR_SIZE
    ensures ReadAt(file, SECTOR_SIZE + off, n) == ReadAt(Data(file), off, n)
  {
    assert |Data(file)| == |file| - SECTOR_SIZE;
    if SECTOR_SIZE + off < |file| {
      if SECTOR_SIZE + off + n <= |file| {
        assert file[SECTOR_SIZE + off..SECTOR_SIZE + off + n] == Data(file)[off..off + n];
      } else {
        assert file[SECTOR_SIZE + off..] == Data(file)[off..];
      }
    }
  }
}
