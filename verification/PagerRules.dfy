/** SQLite's result codes and constants, as far as emscripten/opfsvfs.c uses them. */
module Sqlite {
  datatype Rc =
    | Ok
    | Busy
    | Misuse
    | Full
    | CantOpen
    | NoMem
    | ShortRead
    | ShmMapError

  // The pager's five lock levels.
  const NONE := 0
  const SHARED := 1
  const RESERVED := 2
  const PENDING := 3
  const EXCLUSIVE := 4

  /** The number of lock slots in the wal-index. */
  const SHM_NLOCK := 8

  /** What the flags of xShmLock select; UNLOCK is tested first, then SHARED. */
  datatype ShmMode = ShmUnlock | ShmShared | ShmExclusive
}

/**
 * The pager lock as the comment above opfsLock states it: every request is
 * decided by looking at the level of every other file on the path. No
 * aggregate is kept here; class OpfsInode keeps them and is proved to answer
 * as these rules do.
 */
module PagerRules {
  import opened Options
  import opened Sqlite

  type Levels<!F> = map<F, int>

  ghost predicate OtherAtLeast<F>(levels: Levels<F>, f: F, k: int) {
    exists g :: g in levels && g != f && levels[g] >= k
  }

  ghost function Request<F>(levels: Levels<F>, f: F, eNew: int): (r: (Rc, Levels<F>))
    requires f in levels
  {
    var mine := levels[f];
    if mine >= eNew then (Ok, levels)
    else if eNew == SHARED then
      if OtherAtLeast(levels, f, PENDING) then (Busy, levels) else (Ok, levels[f := SHARED])
    else if eNew != RESERVED && eNew != PENDING && eNew != EXCLUSIVE then (Misuse, levels)
    else if mine < SHARED then (Misuse, levels)
    else if OtherAtLeast(levels, f, RESERVED) then (Busy, levels)
    else if eNew == RESERVED then (Ok, levels[f := RESERVED])
    else if eNew == PENDING then (Ok, levels[f := PENDING])
    else if OtherAtLeast(levels, f, SHARED) then (Busy, levels[f := PENDING])
    else (Ok, levels[f := EXCLUSIVE])
  }

  function Release<F>(levels: Levels<F>, f: F, eNew: int): Levels<F>
    requires f in levels
  {
    if levels[f] <= eNew then levels else levels[f := eNew]
  }

  /** Another writer is refused, and an exclusive holder is alone. */
  ghost predicate Safe<F>(levels: Levels<F>) {
    && (forall f :: f in levels ==> NONE <= levels[f] <= EXCLUSIVE)
    && (forall f, g :: f in levels && g in levels && f != g && levels[f] >= RESERVED ==> levels[g] < RESERVED)
    && (forall f, g :: f in levels && g in levels && f != g && levels[f] == EXCLUSIVE ==> levels[g] == NONE)
  }

  // -- runs -------------------------------------------------------------------

  datatype Step<F> =
    | Open(f: F)
    | Close(f: F)
    | Lock(f: F, eNew: int)
    | Unlock(f: F, eNew: int)

  predicate Enabled<F>(levels: Levels<F>, s: Step<F>) {
    if s.Open? then s.f !in levels
    else s.f in levels && (s.Unlock? ==> s.eNew == NONE || s.eNew == SHARED)
  }

  ghost function Next<F>(levels: Levels<F>, s: Step<F>): Levels<F>
    requires Enabled(levels, s)
  {
    match s
    case Open(f) => levels[f := NONE]
    case Close(f) => levels - {f}
    case Lock(f, eNew) => Request(levels, f, eNew).1
    case Unlock(f, eNew) => Release(levels, f, eNew)
  }

  ghost predicate Possible<F>(levels: Levels<F>, run: seq<Step<F>>)
    decreases |run|
  {
    run == [] || (Enabled(levels, run[0]) && Possible(Next(levels, run[0]), run[1..]))
  }

  ghost function After<F>(levels: Levels<F>, run: seq<Step<F>>): Levels<F>
    requires Possible(levels, run)
    decreases |run|
  {
    if run == [] then levels else After(Next(levels, run[0]), run[1..])
  }

  lemma StepKeepsSafe<F>(levels: Levels<F>, s: Step<F>)
    requires Safe(levels) && Enabled(levels, s)
    ensures Safe(Next(levels, s))
  {
    if s.Lock? && levels[s.f] < s.eNew {
      var others := levels - {s.f};
      assert forall g :: g in others ==> levels[g] == Next(levels, s)[g];
      assert OtherAtLeast(levels, s.f, RESERVED) || forall g :: g in others ==> levels[g] < RESERVED;
      assert OtherAtLeast(levels, s.f, SHARED) || forall g :: g in others ==> levels[g] == NONE;
    }
  }

  lemma RequestKeepsSafe<F>(levels: Levels<F>, f: F, eNew: int)
    requires Safe(levels) && f in levels
    ensures Safe(Request(levels, f, eNew).1)
  {
    StepKeepsSafe(levels, Lock(f, eNew));
  }

  lemma ReleaseKeepsSafe<F>(levels: Levels<F>, f: F, eNew: int)
    requires Safe(levels) && f in levels && (eNew == NONE || eNew == SHARED)
    ensures Safe(Release(levels, f, eNew))
  {
    StepKeepsSafe(levels, Unlock(f, eNew));
  }

  /**
   * A reader's request for a writing level is granted exactly when granting it
   * keeps the files safe. The comment says PENDING yields only to another
   * PENDING; the code also yields to RESERVED, and this is why it has to.
   */
  lemma GrantedExactlyWhenSafe<F>(levels: Levels<F>, f: F, eNew: int)
    requires Safe(levels) && f in levels
    requires SHARED <= levels[f] < eNew <= EXCLUSIVE
    ensures Request(levels, f, eNew).0 == Ok <==> Safe(levels[f := eNew])
    ensures Request(levels, f, eNew).0 == Ok ==> Request(levels, f, eNew).1 == levels[f := eNew]
  {
    var granted := levels[f := eNew];
    if Request(levels, f, eNew).0 == Ok {
      StepKeepsSafe(levels, Lock(f, eNew));
    } else {
      var k := if OtherAtLeast(levels, f, RESERVED) then RESERVED else SHARED;
      var g :| g in levels && g != f && levels[g] >= k;
      assert granted[g] == levels[g] && granted[f] == eNew;
    }
  }

  /**
   * A file that holds nothing is let in exactly when that leaves the files
   * exclusive and adds no reader under a writer that waits in PENDING.
   */
  lemma SharedExactlyWhenAllowed<F>(levels: Levels<F>, f: F)
    requires Safe(levels) && f in levels && levels[f] < SHARED
    ensures var r := Request(levels, f, SHARED);
            if Safe(levels[f := SHARED]) && forall g :: g in levels ==> levels[g] != PENDING
            then r == (Ok, levels[f := SHARED])
            else r == (Busy, levels)
  {
    var granted := levels[f := SHARED];
    assert forall g :: g in levels && g != f ==> granted[g] == levels[g];
    if OtherAtLeast(levels, f, PENDING) {
      var g :| g in levels && g != f && levels[g] >= PENDING;
      assert granted[g] == levels[g] && granted[f] == SHARED;
    } else {
      StepKeepsSafe(levels, Lock(f, SHARED));
    }
  }

  /** Every answer and every level after a request, from the levels of the other files. */
  lemma RequestTells<F>(levels: Levels<F>, f: F, eNew: int)
    requires Safe(levels) && f in levels
    ensures var (rc, after) := Request(levels, f, eNew);
            && after.Keys == levels.Keys && (forall g :: g in levels && g != f ==> after[g] == levels[g])
            && if levels[f] >= eNew then rc == Ok && after[f] == levels[f]
               else if eNew == SHARED then
                 if !OtherAtLeast(levels, f, PENDING) then rc == Ok && after[f] == SHARED
                 else rc == Busy && after[f] == levels[f]
               else if eNew > EXCLUSIVE || levels[f] < SHARED then rc == Misuse && after[f] == levels[f]
               else if OtherAtLeast(levels, f, RESERVED) then rc == Busy && after[f] == levels[f]
               else if eNew == EXCLUSIVE && OtherAtLeast(levels, f, SHARED) then rc == Busy && after[f] == PENDING
               else rc == Ok && after[f] == eNew
  {}

  /** Mutual exclusion over every run by any number of files. */
  lemma {:induction false} RunKeepsSafe<F>(levels: Levels<F>, run: seq<Step<F>>)
    requires Safe(levels) && Possible(levels, run)
    ensures Safe(After(levels, run))
    decreases |run|
  {
    if run != [] {
      StepKeepsSafe(levels, run[0]);
      RunKeepsSafe(Next(levels, run[0]), run[1..]);
    }
  }

  // -- the aggregates an inode keeps ------------------------------------------

  function Holders<F>(levels: Levels<F>): set<F> {
    set f | f in levels && levels[f] >= SHARED
  }

  /** nShared counts the lock holders, eLock is the highest level, owner is the one writer. */
  ghost predicate Agrees<F>(levels: Levels<F>, nShared: int, eLock: int, owner: Option<F>) {
    && nShared == |Holders(levels)|
    && NONE <= eLock <= EXCLUSIVE
    && (forall f :: f in levels ==> NONE <= levels[f] <= eLock)
    && (eLock > NONE ==> exists f :: f in levels && levels[f] == eLock)
    && (owner.Some? ==> owner.value in levels && levels[owner.value] >= RESERVED)
    && (forall f :: f in levels && levels[f] >= RESERVED ==> owner == Some(f))
  }

  /** Above SHARED, eLock and owner answer for a scan of the other files. */
  lemma AggregatesTellWriters<F>(levels: Levels<F>, nShared: int, eLock: int, owner: Option<F>, f: F, k: int)
    requires Agrees(levels, nShared, eLock, owner) && f in levels && k >= RESERVED
    ensures OtherAtLeast(levels, f, k) <==> eLock >= k && owner != Some(f)
    ensures levels[f] < RESERVED ==> owner != Some(f)
  {}

  /** For a file that holds a lock itself, nShared answers whether anyone else does. */
  lemma AggregatesTellReaders<F>(levels: Levels<F>, nShared: int, eLock: int, owner: Option<F>, f: F)
    requires Agrees(levels, nShared, eLock, owner) && f in levels && levels[f] >= SHARED
    ensures OtherAtLeast(levels, f, SHARED) <==> nShared > 1
  {
    var others := Holders(levels) - {f};
    assert Holders(levels) == others + {f};
    if OtherAtLeast(levels, f, SHARED) {
      var g :| g in levels && g != f && levels[g] >= SHARED;
      assert g in others;
    } else {
      assert others == {};
    }
  }

  /** What moving one file does to the count. */
  lemma HoldersMove<F>(levels: Levels<F>, f: F, k: int)
    requires f in levels
    ensures |Holders(levels[f := k])| ==
            |Holders(levels)| + (if k >= SHARED then 1 else 0) - (if levels[f] >= SHARED then 1 else 0)
  {
    var rest := Holders(levels) - {f};
    assert Holders(levels) == if levels[f] >= SHARED then rest + {f} else rest;
    assert Holders(levels[f := k]) == if k >= SHARED then rest + {f} else rest;
  }

  /** A file that becomes the writer, or stays it at a higher level. */
  lemma WriterAgrees<F>(levels: Levels<F>, nShared: int, eLock: int, owner: Option<F>, f: F, k: int)
    requires Agrees(levels, nShared, eLock, owner) && f in levels
    requires SHARED <= levels[f] <= k && RESERVED <= k <= EXCLUSIVE
    requires owner == Some(f) || eLock < RESERVED
    ensures Agrees(levels[f := k], nShared, k, Some(f))
    ensures levels[f] >= RESERVED ==> eLock == levels[f]
  {
    HoldersMove(levels, f, k);
    assert levels[f := k][f] == k;
  }

  lemma ReaderAgrees<F>(levels: Levels<F>, nShared: int, eLock: int, owner: Option<F>, f: F)
    requires Agrees(levels, nShared, eLock, owner) && f in levels && levels[f] < SHARED
    ensures Agrees(levels[f := SHARED], nShared + 1, if eLock < SHARED then SHARED else eLock, owner)
  {
    HoldersMove(levels, f, SHARED);
    var next := levels[f := SHARED];
    assert next[f] == SHARED;
    assert forall g :: g in levels && g != f ==> next[g] == levels[g];
  }

  /** The aggregates after a release, as opfsUnlock computes them. */
  lemma ReleaseAgrees<F>(levels: Levels<F>, nShared: int, eLock: int, owner: Option<F>, f: F, k: int)
    requires Agrees(levels, nShared, eLock, owner) && f in levels
    requires NONE <= k <= SHARED && k < levels[f]
    ensures var writer := levels[f] > SHARED;
            var n := if k == NONE then nShared - 1 else nShared;
            Agrees(levels[f := k], n,
                   if k == NONE && n == 0 then NONE else if writer then SHARED else eLock,
                   if writer then None else owner)
  {
    HoldersMove(levels, f, k);
    var next := levels[f := k];
    assert forall g :: g in levels && g != f ==> next[g] == levels[g];
    if Holders(next) != {} {
      var g :| g in Holders(next);
      assert next[g] >= SHARED;
    } else {
      assert forall g :: g in next ==> g !in Holders(next);
    }
  }

  /** A file that has just been opened holds nothing. */
  lemma OpenAgrees<F>(levels: Levels<F>, nShared: int, eLock: int, owner: Option<F>, f: F)
    requires Agrees(levels, nShared, eLock, owner) && f !in levels
    ensures Safe(levels) ==> Safe(levels[f := NONE])
    ensures Agrees(levels[f := NONE], nShared, eLock, owner)
  {
    var next := levels[f := NONE];
    assert Holders(next) == Holders(levels);
    assert forall g :: g in levels ==> next[g] == levels[g];
  }

  /** A file that holds nothing may go. */
  lemma CloseAgrees<F>(levels: Levels<F>, nShared: int, eLock: int, owner: Option<F>, f: F)
    requires Agrees(levels, nShared, eLock, owner) && f in levels && levels[f] == NONE
    ensures Safe(levels) ==> Safe(levels - {f})
    ensures Agrees(levels - {f}, nShared, eLock, owner)
  {
    var next := levels - {f};
    assert Holders(next) == Holders(levels);
    assert forall g :: g in levels && g != f ==> g in next && next[g] == levels[g];
  }

  // -- writer progress --------------------------------------------------------

  function Readers<F>(levels: Levels<F>, w: F): set<F> {
    set g | g in levels && g != w && levels[g] >= SHARED
  }

  /** How many steps of the run take a reader to NONE. */
  ghost function Departures<F>(levels: Levels<F>, run: seq<Step<F>>): nat
    requires Possible(levels, run)
    decreases |run|
  {
    if run == [] then 0
    else
      var s := run[0];
      var leaves := s.f in levels && levels[s.f] >= SHARED && (s.Close? || (s.Unlock? && s.eNew == NONE));
      (if leaves then 1 else 0) + Departures(Next(levels, s), run[1..])
  }

  lemma StepUnderPending<F>(levels: Levels<F>, s: Step<F>, w: F)
    requires Safe(levels) && Enabled(levels, s)
    requires w in levels && levels[w] == PENDING && s.f != w
    ensures var next := Next(levels, s);
            && w in next && next[w] == PENDING
            && |Readers(next, w)| + Departures(levels, [s]) == |Readers(levels, w)|
  {
    var next := Next(levels, s);
    var before, after := Readers(levels, w), Readers(next, w);
    assert OtherAtLeast(levels, s.f, PENDING) && OtherAtLeast(levels, s.f, RESERVED);
    assert [s][1..] == [] && Possible(next, []);
    if Departures(levels, [s]) == 1 {
      assert after == before - {s.f};
    } else {
      assert forall g :: g in levels && g != s.f ==> g in next && next[g] == levels[g];
      assert after == before;
    }
  }

  /**
   * While w holds PENDING, whatever the other files do: w keeps PENDING, nobody
   * else reaches RESERVED, and the readers that remain are exactly those that
   * were there less those that left.
   */
  lemma {:induction false} ReadersOnlyLeave<F>(levels: Levels<F>, run: seq<Step<F>>, w: F)
    requires Safe(levels) && Possible(levels, run)
    requires w in levels && levels[w] == PENDING
    requires forall i :: 0 <= i < |run| ==> run[i].f != w
    ensures var last := After(levels, run);
            && w in last && last[w] == PENDING && !OtherAtLeast(last, w, RESERVED)
            && |Readers(last, w)| + Departures(levels, run) == |Readers(levels, w)|
    decreases |run|
  {
    if run != [] {
      StepUnderPending(levels, run[0], w);
      StepKeepsSafe(levels, run[0]);
      assert [run[0]][1..] == [];
      assert Departures(levels, run) == Departures(levels, [run[0]]) + Departures(Next(levels, run[0]), run[1..]);
      ReadersOnlyLeave(Next(levels, run[0]), run[1..], w);
    }
  }

  /** The waiting writer is granted EXCLUSIVE exactly when as many readers have left as there were. */
  lemma WriterProgress<F>(levels: Levels<F>, run: seq<Step<F>>, w: F)
    requires Safe(levels) && Possible(levels, run)
    requires w in levels && levels[w] == PENDING
    requires forall i :: 0 <= i < |run| ==> run[i].f != w
    ensures w in After(levels, run)
    ensures Request(After(levels, run), w, EXCLUSIVE).0 == Ok <==> Departures(levels, run) == |Readers(levels, w)|
    ensures Request(After(levels, run), w, EXCLUSIVE).0 in {Ok, Busy}
    ensures Request(After(levels, run), w, EXCLUSIVE).0 == Busy ==>
              Request(After(levels, run), w, EXCLUSIVE).1 == After(levels, run)
  {
    ReadersOnlyLeave(levels, run, w);
    var last := After(levels, run);
    assert last[w := PENDING] == last;
    if OtherAtLeast(last, w, SHARED) {
      var g :| g in last && g != w && last[g] >= SHARED;
      assert g in Readers(last, w);
    } else {
      assert Readers(last, w) == {};
    }
  }
}
