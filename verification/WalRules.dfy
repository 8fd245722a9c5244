/**
 * The eight wal-index lock slots, decided by looking at what every other file
 * holds. Class OpfsInode keeps counters and owners instead and is proved to
 * answer as these rules do.
 */
module WalRules {
  import opened Options
  import opened Sqlite

  /** What one file holds. */
  datatype Held = Held(shared: set<int>, excl: set<int>)

  type Table<!F> = map<F, Held>

  const NOTHING := Held({}, {})

  const SLOTS: set<int> := {0, 1, 2, 3, 4, 5, 6, 7}

  /** The slots of the half-open range that exist. */
  function Range(lo: int, hi: int): set<int> {
    set i | i in SLOTS && lo <= i < hi
  }

  ghost predicate OtherHolds<F>(t: Table<F>, f: F, slots: set<int>) {
    exists g, i :: g in t && g != f && i in slots && (i in t[g].shared || i in t[g].excl)
  }

  ghost predicate OtherHoldsExclusively<F>(t: Table<F>, f: F, slots: set<int>) {
    exists g, i :: g in t && g != f && i in slots && i in t[g].excl
  }

  /** What f would hold of the slots once the mode is applied to all of them, whatever others hold. */
  function Apply(h: Held, slots: set<int>, mode: ShmMode): Held {
    match mode
    case ShmUnlock => Held(h.shared - slots, h.excl - slots)
    case ShmShared => Held(h.shared + (slots - h.excl), h.excl)
    case ShmExclusive => Held(h.shared - slots, h.excl + slots)
  }

  /** A whole range is granted or nothing is. */
  ghost function Request<F>(t: Table<F>, f: F, ofst: int, n: int, mode: ShmMode): (r: (Rc, Table<F>))
    requires f in t
  {
    var slots := Range(ofst, ofst + n);
    if ofst < 0 || n <= 0 || ofst + n > SHM_NLOCK then (Misuse, t)
    else if mode.ShmShared? && OtherHoldsExclusively(t, f, slots) then (Busy, t)
    else if mode.ShmExclusive? && OtherHolds(t, f, slots) then (Busy, t)
    else (Ok, t[f := Apply(t[f], slots, mode)])
  }

  /** An exclusive slot is held by one file, and by that file only once. */
  ghost predicate Safe<F>(t: Table<F>) {
    && (forall f :: f in t ==> t[f].shared !! t[f].excl && t[f].shared + t[f].excl <= SLOTS)
    && (forall f, g :: f in t && g in t && f != g ==> t[f].excl !! (t[g].shared + t[g].excl))
  }

  datatype Step<F> =
    | Open(f: F)
    | Close(f: F)
    | Lock(f: F, ofst: int, n: int, mode: ShmMode)

  predicate Enabled<F>(t: Table<F>, s: Step<F>) {
    if s.Open? then s.f !in t else s.f in t
  }

  ghost function Next<F>(t: Table<F>, s: Step<F>): Table<F>
    requires Enabled(t, s)
  {
    match s
    case Open(f) => t[f := NOTHING]
    case Close(f) => t - {f}
    case Lock(f, ofst, n, mode) => Request(t, f, ofst, n, mode).1
  }

  ghost predicate Possible<F>(t: Table<F>, run: seq<Step<F>>)
    decreases |run|
  {
    run == [] || (Enabled(t, run[0]) && Possible(Next(t, run[0]), run[1..]))
  }

  ghost function After<F>(t: Table<F>, run: seq<Step<F>>): Table<F>
    requires Possible(t, run)
    decreases |run|
  {
    if run == [] then t else After(Next(t, run[0]), run[1..])
  }

  lemma StepKeepsSafe<F>(t: Table<F>, s: Step<F>)
    requires Safe(t) && Enabled(t, s)
    ensures Safe(Next(t, s))
  {
  }

  lemma RequestKeepsSafe<F>(t: Table<F>, f: F, ofst: int, n: int, mode: ShmMode)
    requires Safe(t) && f in t
    ensures Safe(Request(t, f, ofst, n, mode).1)
  {
    StepKeepsSafe(t, Lock(f, ofst, n, mode));
  }

  /** Unlocking all eight slots lets go of everything. */
  lemma ReleaseEverything<F>(t: Table<F>, f: F)
    requires Safe(t) && f in t
    ensures Request(t, f, 0, SHM_NLOCK, ShmUnlock) == (Ok, t[f := NOTHING])
  {
    assert Range(0, SHM_NLOCK) == SLOTS;
    assert t[f].shared - SLOTS == {} && t[f].excl - SLOTS == {};
  }

  /** Shared and exclusive holders never meet, over every run by any number of files. */
  lemma {:induction false} RunKeepsSafe<F>(t: Table<F>, run: seq<Step<F>>)
    requires Safe(t) && Possible(t, run)
    ensures Safe(After(t, run))
    ensures var last := After(t, run);
            forall f, g, i :: f in last && g in last && f != g && i in last[f].excl ==>
              i !in last[g].shared && i !in last[g].excl
    decreases |run|
  {
    if run != [] {
      StepKeepsSafe(t, run[0]);
      RunKeepsSafe(Next(t, run[0]), run[1..]);
    }
  }

  lemma ApplyNothing(h: Held, i: int, mode: ShmMode)
    ensures Apply(h, Range(i, i), mode) == h
  {
    assert Range(i, i) == {};
    assert h.shared - {} == h.shared && h.excl - {} == h.excl;
    assert h.shared + ({} - h.excl) == h.shared && h.excl + {} == h.excl;
  }

  /** A range is applied slot by slot. */
  lemma ApplyOneMore(h: Held, lo: int, i: int, mode: ShmMode)
    requires 0 <= lo <= i < SHM_NLOCK
    ensures Apply(h, Range(lo, i + 1), mode) == Apply(Apply(h, Range(lo, i), mode), {i}, mode)
    ensures Apply(h, {i}, mode).shared - {i} == h.shared - {i}
    ensures Apply(h, {i}, mode).excl - {i} == h.excl - {i}
  {
    RangeGrows(lo, i);
    var all, one := Apply(h, Range(lo, i + 1), mode), Apply(Apply(h, Range(lo, i), mode), {i}, mode);
    assert all.shared == one.shared;
    assert all.excl == one.excl;
  }

  /** The table once f has had a mode applied to some slots. */
  function Applied<F>(t: Table<F>, f: F, slots: set<int>, mode: ShmMode): Table<F>
    requires f in t
  {
    t[f := Apply(t[f], slots, mode)]
  }

  lemma AppliedOneMore<F>(t: Table<F>, f: F, lo: int, i: int, mode: ShmMode)
    requires f in t && 0 <= lo <= i < SHM_NLOCK
    ensures Applied(t, f, Range(lo, lo), mode) == t
    ensures Applied(Applied(t, f, Range(lo, i), mode), f, {i}, mode) == Applied(t, f, Range(lo, i + 1), mode)
  {
    ApplyNothing(t[f], lo, mode);
    ApplyOneMore(t[f], lo, i, mode);
    hide Apply, Range;
    assert t[f := t[f]] == t;
  }

  /** BUSY is answered exactly when granting the whole range would break exclusion, and changes nothing. */
  lemma BusyExactlyWhenUnsafe<F>(t: Table<F>, f: F, ofst: int, n: int, mode: ShmMode)
    requires Safe(t) && f in t && !mode.ShmUnlock?
    requires 0 <= ofst && 0 < n && ofst + n <= SHM_NLOCK
    ensures var r := Request(t, f, ofst, n, mode);
            var granted := t[f := Apply(t[f], Range(ofst, ofst + n), mode)];
            if Safe(granted) then r == (Ok, granted) else r == (Busy, t)
  {
    var slots := Range(ofst, ofst + n);
    var granted := t[f := Apply(t[f], slots, mode)];
    if Request(t, f, ofst, n, mode).0 == Ok {
      StepKeepsSafe(t, Lock(f, ofst, n, mode));
    } else {
      var g, i :| g in t && g != f && i in slots && (i in t[g].excl || (mode.ShmExclusive? && i in t[g].shared));
      assert granted[g] == t[g];
      if mode.ShmExclusive? {
        assert i in granted[f].excl && i in granted[g].shared + granted[g].excl;
      } else {
        assert i in granted[g].excl;
        assert i in granted[f].shared + granted[f].excl;
      }
    }
  }

  /** Slot by slot, every answer and everything f holds after a request; the other files hold what they held. */
  lemma RequestTells<F>(t: Table<F>, f: F, ofst: int, n: int, mode: ShmMode)
    requires Safe(t) && f in t
    ensures var (rc, after) := Request(t, f, ofst, n, mode);
            && after.Keys == t.Keys && (forall g :: g in t && g != f ==> after[g] == t[g])
            && rc == (if ofst < 0 || n <= 0 || ofst + n > 8 then Misuse
                      else if mode.ShmShared? && HeldElsewhere(t, f, ofst, n, true) then Busy
                      else if mode.ShmExclusive? && HeldElsewhere(t, f, ofst, n, false) then Busy
                      else Ok)
            && (rc != Ok ==> after[f] == t[f])
            && (rc == Ok ==> forall i ::
                  HoldsAfter(t[f], after[f], ofst, n, mode, i))
  {
    if 0 <= ofst && 0 < n && ofst + n <= 8 {
      HeldTells(t, f, ofst, n, true);
      HeldTells(t, f, ofst, n, false);
    }
  }

  lemma HeldTells<F>(t: Table<F>, f: F, ofst: int, n: int, exclusively: bool)
    requires f in t && 0 <= ofst && 0 < n && ofst + n <= 8
    ensures var slots := Range(ofst, ofst + n);
            HeldElsewhere(t, f, ofst, n, exclusively) <==>
            if exclusively then OtherHoldsExclusively(t, f, slots) else OtherHolds(t, f, slots)
  {
    if HeldElsewhere(t, f, ofst, n, exclusively) {
      var g, i :| g in t && g != f && ofst <= i < ofst + n
                  && (i in t[g].excl || (!exclusively && i in t[g].shared));
      assert i in Range(ofst, ofst + n);
    }
  }

  /** Another file holds a slot from ofst on, exclusively or at all. */
  ghost predicate HeldElsewhere<F>(t: Table<F>, f: F, ofst: int, n: int, exclusively: bool) {
    exists g, i :: g in t && g != f && ofst <= i < ofst + n && (i in t[g].excl || (!exclusively && i in t[g].shared))
  }

  /** Slot i once the request is granted: as before if it is not asked for, and as the mode says if it is. */
  predicate HoldsAfter(was: Held, now: Held, ofst: int, n: int, mode: ShmMode, i: int) {
    if !(ofst <= i < ofst + n) then (i in now.shared <==> i in was.shared) && (i in now.excl <==> i in was.excl)
    else match mode
         case ShmUnlock => i !in now.shared && i !in now.excl
         case ShmShared => (i in now.excl <==> i in was.excl) && (i in now.shared <==> i !in was.excl)
         case ShmExclusive => i !in now.shared && i in now.excl
  }

  // -- the aggregates an inode keeps ------------------------------------------

  function Sharers<F>(t: Table<F>, i: int): set<F> {
    set f | f in t && i in t[f].shared
  }

  /** counts[i] counts the slot's sharers and owners[i] is its one exclusive holder. */
  ghost predicate Agrees<F>(t: Table<F>, counts: seq<int>, owners: seq<Option<F>>) {
    && |counts| == |owners| == SHM_NLOCK
    && (forall f :: f in t ==> t[f].shared + t[f].excl <= SLOTS)
    && (forall i :: 0 <= i < SHM_NLOCK ==> counts[i] == |Sharers(t, i)|)
    && (forall i :: 0 <= i < SHM_NLOCK && owners[i].Some? ==>
          owners[i].value in t && i in t[owners[i].value].excl)
    && (forall f, i :: f in t && 0 <= i < SHM_NLOCK && i in t[f].excl ==> owners[i] == Some(f))
  }

  /** The two tests of opfsShmLock on one slot, against a scan of the other files. */
  lemma AggregatesTell<F>(t: Table<F>, counts: seq<int>, owners: seq<Option<F>>, f: F, i: int)
    requires Agrees(t, counts, owners) && f in t && 0 <= i < SHM_NLOCK
    ensures OtherHoldsExclusively(t, f, {i}) <==> owners[i] != None && owners[i] != Some(f)
    ensures OtherHolds(t, f, {i}) <==>
            OtherHoldsExclusively(t, f, {i}) || counts[i] > (if i in t[f].shared then 1 else 0)
  {
    assert OtherHoldsExclusively(t, f, {i}) <==> exists g :: g in t && g != f && i in t[g].excl;
    OthersShare(t, f, i);
    assert i in {i};
  }

  lemma OthersShare<F>(t: Table<F>, f: F, i: int)
    requires f in t
    ensures |Sharers(t, i)| > (if i in t[f].shared then 1 else 0) <==> exists g :: g in t && g != f && i in t[g].shared
  {
    var others := Sharers(t, i) - {f};
    assert Sharers(t, i) == if i in t[f].shared then others + {f} else others;
    if others != {} {
      var g :| g in others;
      assert g in t && g != f && i in t[g].shared;
    } else {
      assert forall g :: g in t && g != f ==> g !in others;
      assert |others| == 0;
    }
  }

  lemma RangeGrows(lo: int, hi: int)
    requires 0 <= lo <= hi < SHM_NLOCK
    ensures Range(lo, hi + 1) == Range(lo, hi) + {hi}
  {}

  lemma SharersMove<F>(t: Table<F>, f: F, h: Held, i: int)
    requires f in t
    ensures |Sharers(t[f := h], i)| ==
            |Sharers(t, i)| + (if i in h.shared then 1 else 0) - (if i in t[f].shared then 1 else 0)
  {
    var rest := Sharers(t, i) - {f};
    assert Sharers(t, i) == if i in t[f].shared then rest + {f} else rest;
    assert Sharers(t[f := h], i) == if i in h.shared then rest + {f} else rest;
  }

  /** Changing what one file holds of one slot, and the aggregates of that slot with it. */
  lemma SlotAgrees<F>(t: Table<F>, counts: seq<int>, owners: seq<Option<F>>, f: F, i: int, h: Held, owner: Option<F>)
    requires Agrees(t, counts, owners) && f in t && 0 <= i < SHM_NLOCK
    requires h.shared - {i} == t[f].shared - {i} && h.excl - {i} == t[f].excl - {i}
    requires if i in h.excl then owner == Some(f) && owners[i] in {None, Some(f)}
             else owner == if i in t[f].excl then None else owners[i]
    ensures var d := (if i in h.shared then 1 else 0) - (if i in t[f].shared then 1 else 0);
            Agrees(t[f := h],
                   if d == 0 then counts else counts[i := counts[i] + d],
                   if owner == owners[i] then owners else owners[i := owner])
  {
    var d := (if i in h.shared then 1 else 0) - (if i in t[f].shared then 1 else 0);
    OneSlotMoves(t, f, i, h);
    hide Sharers;
    var counts' := if d == 0 then counts else counts[i := counts[i] + d];
    var owners' := if owner == owners[i] then owners else owners[i := owner];
    assert forall j :: 0 <= j < SHM_NLOCK ==> counts'[j] == counts[j] + if j == i then d else 0;
    assert forall j :: 0 <= j < SHM_NLOCK ==> owners'[j] == if j == i then owner else owners[j];
    assert i in SLOTS;
    assert h.shared <= (h.shared - {i}) + {i} && h.excl <= (h.excl - {i}) + {i};
    assert forall g :: g in t && g != f ==> t[f := h][g] == t[g];
  }

  lemma OneSlotMoves<F>(t: Table<F>, f: F, i: int, h: Held)
    requires f in t
    requires h.shared - {i} == t[f].shared - {i} && h.excl - {i} == t[f].excl - {i}
    ensures var d := (if i in h.shared then 1 else 0) - (if i in t[f].shared then 1 else 0);
            forall j :: |Sharers(t[f := h], j)| == |Sharers(t, j)| + if j == i then d else 0
    ensures forall j :: j != i ==> (j in h.shared <==> j in t[f].shared) && (j in h.excl <==> j in t[f].excl)
  {
    forall j
      ensures |Sharers(t[f := h], j)| ==
              |Sharers(t, j)| + (if j in h.shared then 1 else 0) - (if j in t[f].shared then 1 else 0)
      ensures j != i ==> (j in h.shared <==> j in t[f].shared) && (j in h.excl <==> j in t[f].excl)
    {
      SharersMove(t, f, h, j);
      if j != i {
        assert j in h.shared <==> j in h.shared - {i};
        assert j in h.excl <==> j in h.excl - {i};
      }
    }
  }

  /** What one pass of a loop of opfsShmLock makes of the slot's count, for a file that holds h. */
  function NextCounts(h: Held, counts: seq<int>, i: int, mode: ShmMode): seq<int>
    requires 0 <= i < |counts|
  {
    if mode.ShmShared? then
      if i !in h.shared && i !in h.excl then counts[i := counts[i] + 1] else counts
    else if i in h.shared then counts[i := counts[i] - 1]
    else counts
  }

  /** ... and of its owner. */
  function NextOwners<F>(h: Held, owners: seq<Option<F>>, f: F, i: int, mode: ShmMode): seq<Option<F>>
    requires 0 <= i < |owners|
  {
    match mode
    case ShmUnlock => if i in h.excl then owners[i := None] else owners
    case ShmShared => owners
    case ShmExclusive => owners[i := Some(f)]
  }

  lemma SlotStepAgrees<F>(t: Table<F>, counts: seq<int>, owners: seq<Option<F>>, f: F, i: int, mode: ShmMode)
    requires Agrees(t, counts, owners) && f in t && 0 <= i < SHM_NLOCK
    requires mode.ShmExclusive? ==> owners[i] in {None, Some(f)}
    ensures Agrees(Applied(t, f, {i}, mode), NextCounts(t[f], counts, i, mode), NextOwners(t[f], owners, f, i, mode))
    ensures mode.ShmShared? && (i in t[f].shared || i in t[f].excl) ==> Apply(t[f], {i}, mode) == t[f]
    ensures mode.ShmShared? && i !in t[f].shared && i !in t[f].excl ==>
              Apply(t[f], {i}, mode) == Held(t[f].shared + {i}, t[f].excl)
  {
    var h := Apply(t[f], {i}, mode);
    assert i in t[f].excl ==> owners[i] == Some(f);
    assert owners[i := owners[i]] == owners;
    ApplyOneMore(t[f], i, i, mode);
    assert mode.ShmShared? ==>
        h.shared == if i in t[f].shared || i in t[f].excl then t[f].shared else t[f].shared + {i};
    var owner := if mode.ShmExclusive? then Some(f)
                 else if mode.ShmUnlock? && i in t[f].excl then None else owners[i];
    assert NextOwners(t[f], owners, f, i, mode) == if owner == owners[i] then owners else owners[i := owner];
    hide Agrees;
    SlotAgrees(t, counts, owners, f, i, h, owner);
  }

  /** A file that has just been opened holds no slot. */
  lemma OpenAgrees<F>(t: Table<F>, counts: seq<int>, owners: seq<Option<F>>, f: F)
    requires Agrees(t, counts, owners) && f !in t
    ensures Safe(t) ==> Safe(t[f := NOTHING])
    ensures Agrees(t[f := NOTHING], counts, owners)
  {
    var next := t[f := NOTHING];
    assert forall i :: 0 <= i < SHM_NLOCK ==> Sharers(next, i) == Sharers(t, i);
  }

  /** A file that holds no slot may go. */
  lemma CloseAgrees<F>(t: Table<F>, counts: seq<int>, owners: seq<Option<F>>, f: F)
    requires Agrees(t, counts, owners) && f in t && t[f] == NOTHING
    ensures Safe(t) ==> Safe(t - {f})
    ensures Agrees(t - {f}, counts, owners)
  {
    var next := t - {f};
    assert forall i :: 0 <= i < SHM_NLOCK ==> Sharers(next, i) == Sharers(t, i);
  }
}
