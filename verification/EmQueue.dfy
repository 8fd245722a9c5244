/**
 * The watcher list and the timer of emscripten/emqueue.c. A drain may run any
 * Tcl, so it may add and remove watchers, and it may enter the event loop, where
 * the timer can fire again: what one drain does is a script, and a tick inside
 * it runs scripts of its own.
 */
module EmQueues {
  import opened Sequences

  const EMQ_MAX_WATCHERS := 8

  /** A drain procedure and its client data. */
  datatype Watcher = Watcher(proc: int, clientData: int)

  datatype Script =
    | Done
    | Watch(w: Watcher, rest: Script)
    | Unwatch(w: Watcher, rest: Script)
    | Events(plan: Plan, rest: Script)

  /** What the drains of one tick do, in turn; those past its end do nothing. */
  datatype Plan = Quiet | Next(script: Script, rest: Plan)

  function ScriptSize(script: Script): nat
    decreases script
  {
    match script
    case Done => 0
    case Watch(_, rest) => 1 + ScriptSize(rest)
    case Unwatch(_, rest) => 1 + ScriptSize(rest)
    case Events(plan, rest) => 1 + PlanSize(plan) + ScriptSize(rest)
  }

  function PlanSize(plan: Plan): nat
    decreases plan
  {
    match plan
    case Quiet => 0
    case Next(script, rest) => 1 + ScriptSize(script) + PlanSize(rest)
  }

  // -- the protocol on values -----------------------------------------------------

  /** A drain called, by a tick nested this deep. */
  datatype Call = Call(depth: nat, w: Watcher)

  /** `timers` counts the timer handlers that are pending; `calls` is what has been called so far. */
  datatype State = State(list: seq<Watcher>, armed: bool, timers: nat, calls: seq<Call>)

  /** Tcl_Panic ends the process. */
  datatype Outcome = Going(s: State) | Panicked

  function Armed(s: State): State {
    if s.list != [] && !s.armed then s.(armed := true, timers := s.timers + 1) else s
  }

  function AfterWatch(s: State, w: Watcher): Outcome {
    if w in s.list then Going(s)
    else if |s.list| >= EMQ_MAX_WATCHERS then Panicked
    else Going(Armed(s.(list := s.list + [w])))
  }

  /** The last watcher fills the hole. */
  function AfterUnwatch(s: State, w: Watcher): State {
    if w !in s.list then s
    else s.(list := s.list[IndexOf(s.list, w, 0) := s.list[|s.list| - 1]][..|s.list| - 1])
  }

  function AfterScript(s: State, script: Script, depth: nat): Outcome
    decreases script, 0
  {
    match script
    case Done => Going(s)
    case Watch(w, rest) =>
      var r := AfterWatch(s, w);
      if r.Going? then AfterScript(r.s, rest, depth) else Panicked
    case Unwatch(w, rest) => AfterScript(AfterUnwatch(s, w), rest, depth)
    case Events(plan, rest) =>
      // the event loop runs the timer if one is pending
      var r := if s.timers > 0 then AfterTick(s, plan, depth) else Going(s);
      if r.Going? then AfterScript(r.s, rest, depth) else Panicked
  }

  function AfterTick(s: State, plan: Plan, depth: nat): Outcome
    requires s.timers > 0
    decreases plan, |s.list| + 1
  {
    var r := AfterDrains(s.(armed := false, timers := s.timers - 1), s.list, plan, depth);
    if r.Going? then Going(Armed(r.s)) else Panicked
  }

  /** The drains still to run, from the copy the tick made of the list. */
  function AfterDrains(s: State, local: seq<Watcher>, plan: Plan, depth: nat): Outcome
    decreases plan, |local|
  {
    if local == [] then Going(s)
    else
      var called := s.(calls := s.calls + [Call(depth, local[0])]);
      match plan
      case Quiet => AfterDrains(called, local[1..], Quiet, depth)
      case Next(script, rest) =>
        var r := AfterScript(called, script, depth + 1);
        if r.Going? then AfterDrains(r.s, local[1..], rest, depth) else Panicked
  }

  /** One script after another. */
  function Append(a: Script, b: Script): Script {
    match a
    case Done => b
    case Watch(w, rest) => Watch(w, Append(rest, b))
    case Unwatch(w, rest) => Unwatch(w, Append(rest, b))
    case Events(plan, rest) => Events(plan, Append(rest, b))
  }

  lemma {:induction false} AppendFollows(s: State, a: Script, b: Script, depth: nat)
    ensures var r := AfterScript(s, a, depth);
            AfterScript(s, Append(a, b), depth) == if r.Going? then AfterScript(r.s, b, depth) else Panicked
    decreases a
  {
    match a
    case Done =>
    case Watch(w, rest) =>
      var r := AfterWatch(s, w);
      if r.Going? {
        AppendFollows(r.s, rest, b, depth);
      }
    case Unwatch(w, rest) => AppendFollows(AfterUnwatch(s, w), rest, b, depth);
    case Events(plan, rest) =>
      var r := if s.timers > 0 then AfterTick(s, plan, depth) else Going(s);
      if r.Going? {
        AppendFollows(r.s, rest, b, depth);
      }
  }

  // -- what holds of every run -------------------------------------------------------

  /** Armed means one timer and never two; no watcher is listed twice. */
  ghost predicate Sound(s: State) {
    && |s.list| <= EMQ_MAX_WATCHERS && Distinct(s.list)
    && s.timers == (if s.armed then 1 else 0)
  }

  /** Somebody watching means a timer is coming. */
  predicate Settled(s: State) { s.list != [] ==> s.armed }

  lemma WatchKeeps(s: State, w: Watcher)
    requires Sound(s)
    ensures var r := AfterWatch(s, w);
            && (r.Panicked? <==> w !in s.list && |s.list| == 8)
            && (r.Going? ==> Sound(r.s) && (Settled(s) ==> Settled(r.s)) && r.s.calls == s.calls
                             && (w in s.list ==> r.s == s)
                             && (w !in s.list ==> r.s.list == s.list + [w] && r.s.armed)
                             && forall x :: x in r.s.list <==> x in s.list || x == w)
  {}

  lemma UnwatchKeeps(s: State, w: Watcher)
    requires Sound(s)
    ensures var r := AfterUnwatch(s, w);
            && Sound(r) && (Settled(s) ==> Settled(r)) && r.calls == s.calls && r.armed == s.armed
            && (forall x :: x in r.list <==> x in s.list && x != w)
            && |r.list| == |s.list| - (if w in s.list then 1 else 0)
            && forall j :: 0 <= j < |r.list| ==>
                 r.list[j] == if s.list[j] == w then s.list[|s.list| - 1] else s.list[j]
  {
    if w in s.list {
      var n, i := |s.list|, IndexOf(s.list, w, 0);
      var r := AfterUnwatch(s, w).list;
      assert forall j :: 0 <= j < n - 1 ==> r[j] == if j == i then s.list[n - 1] else s.list[j];
      forall x
        ensures x in r <==> x in s.list && x != w
      {
        if x in s.list && x != w {
          var j :| 0 <= j < n && s.list[j] == x;
          assert r[if j == n - 1 then i else j] == x;
        }
      }
    }
  }

  /** The calls made by ticks nested exactly this deep. */
  function AtDepth(calls: seq<Call>, depth: nat): seq<Watcher> {
    if calls == [] then []
    else AtDepth(calls[..|calls| - 1], depth)
         + if calls[|calls| - 1].depth == depth then [calls[|calls| - 1].w] else []
  }

  /** Whatever a drain at this depth does, ticks inside it are deeper. */
  predicate Deeper(before: seq<Call>, after: seq<Call>, depth: nat) {
    && before <= after
    && forall i :: |before| <= i < |after| ==> after[i].depth >= depth
  }

  lemma {:induction false} DeeperCalls(before: seq<Call>, after: seq<Call>, depth: nat)
    requires Deeper(before, after, depth + 1)
    ensures AtDepth(after, depth) == AtDepth(before, depth)
    decreases |after|
  {
    if |after| > |before| {
      DeeperCalls(before, after[..|after| - 1], depth);
    } else {
      assert after == before;
    }
  }

  /**
   * Over every script: one timer at most, no watcher twice, and outside a tick
   * nobody watches without a timer.
   */
  lemma {:induction false} ScriptKeeps(s: State, script: Script, depth: nat)
    requires Sound(s)
    ensures var r := AfterScript(s, script, depth);
            r.Going? ==> Sound(r.s) && (Settled(s) ==> Settled(r.s)) && Deeper(s.calls, r.s.calls, depth)
    decreases script, 0
  {
    match script
    case Done =>
    case Watch(w, rest) =>
      WatchKeeps(s, w);
      var r := AfterWatch(s, w);
      if r.Going? {
        ScriptKeeps(r.s, rest, depth);
      }
    case Unwatch(w, rest) =>
      UnwatchKeeps(s, w);
      ScriptKeeps(AfterUnwatch(s, w), rest, depth);
    case Events(plan, rest) =>
      if s.timers > 0 {
        TickKeeps(s, plan, depth);
      }
      var r := if s.timers > 0 then AfterTick(s, plan, depth) else Going(s);
      if r.Going? {
        ScriptKeeps(r.s, rest, depth);
      }
  }

  /**
   * A tick leaves a timer behind if anybody still watches, and it runs each
   * watcher that was listed when it began once, in order, whatever the drains do
   * to the list meanwhile.
   */
  lemma {:induction false} TickKeeps(s: State, plan: Plan, depth: nat)
    requires Sound(s) && s.timers > 0
    ensures var r := AfterTick(s, plan, depth);
            r.Going? ==>
              && Sound(r.s) && Settled(r.s) && Deeper(s.calls, r.s.calls, depth)
              && AtDepth(r.s.calls, depth) == AtDepth(s.calls, depth) + s.list
    decreases plan, |s.list| + 1
  {
    DrainsKeep(s.(armed := false, timers := s.timers - 1), s.list, plan, depth);
  }

  lemma OneCall(calls: seq<Call>, depth: nat, w: Watcher)
    ensures AtDepth(calls + [Call(depth, w)], depth) == AtDepth(calls, depth) + [w]
  {
    assert (calls + [Call(depth, w)])[..|calls|] == calls;
  }

  lemma {:induction false} DrainsKeep(s: State, local: seq<Watcher>, plan: Plan, depth: nat)
    requires Sound(s)
    ensures var r := AfterDrains(s, local, plan, depth);
            r.Going? ==>
              && Sound(r.s) && Deeper(s.calls, r.s.calls, depth)
              && AtDepth(r.s.calls, depth) == AtDepth(s.calls, depth) + local
    decreases plan, |local|
  {
    hide AfterScript, Distinct, AtDepth;
    if local != [] {
      var called := s.(calls := s.calls + [Call(depth, local[0])]);
      OneCall(s.calls, depth, local[0]);
      assert Sound(called);
      assert local == [local[0]] + local[1..];
      match plan
      case Quiet => DrainsKeep(called, local[1..], Quiet, depth);
      case Next(script, rest) =>
        ScriptKeeps(called, script, depth + 1);
        var r := AfterScript(called, script, depth + 1);
        if r.Going? {
          DeeperCalls(called.calls, r.s.calls, depth);
          DrainsKeep(r.s, local[1..], rest, depth);
        }
    }
  }

  // -- the protocol as it is run ---------------------------------------------------

  class EmQueue {
    const watchers: array<Watcher>
    var nWatchers: nat
    var armed: bool

    /** Tcl's pending timer handlers for Tick, and the calls made so far. */
    var timers: nat
    ghost var calls: seq<Call>

    constructor ()
      ensures Valid() && Settled(Now()) && Now() == State([], false, 0, []) && fresh(watchers)
    {
      watchers := new Watcher[EMQ_MAX_WATCHERS](_ => Watcher(0, 0));
      nWatchers, armed, timers, calls := 0, false, 0, [];
    }

    ghost predicate Valid()
      reads this, watchers
    {
      watchers.Length == EMQ_MAX_WATCHERS && nWatchers <= EMQ_MAX_WATCHERS && Sound(Now())
    }

    ghost function List(): seq<Watcher>
      reads `nWatchers, watchers
    {
      if nWatchers <= watchers.Length then watchers[..nWatchers] else []
    }

    ghost function Now(): State
      reads this, watchers
    {
      State(List(), armed, timers, calls)
    }

    /** Nobody else starts or stops watching, and a queue that had its timer has it still. */
    twostate predicate OnlyConcerns(w: Watcher)
      reads this, watchers
    {
      && (forall x :: x != w ==> (x in List() <==> x in old(List())))
      && (old(Settled(Now())) ==> Settled(Now())) && calls == old(calls)
    }

    ghost predicate HasRoomFor(w: Watcher)
      reads `nWatchers, watchers
    {
      w in List() || nWatchers < EMQ_MAX_WATCHERS
    }

    method Arm()
      requires nWatchers <= watchers.Length
      modifies `armed, `timers
      ensures Now() == Armed(old(Now()))
    {
      if nWatchers > 0 && !armed {
        armed := true;
        timers := timers + 1;
      }
    }

    /** EmQueue_Watch; false is a panic. */
    method Watch(w: Watcher) returns (ok: bool)
      requires Valid()
      modifies this, watchers
      ensures Valid()
      ensures AfterWatch(old(Now()), w) == if ok then Going(Now()) else Panicked
      ensures ok == old(HasRoomFor(w)) && (ok ==> w in List()) && OnlyConcerns(w)
    {
      WatchKeeps(Now(), w);
      for i := 0 to nWatchers
        invariant w !in watchers[..i]
      {
        assert watchers[..i + 1] == watchers[..i] + [watchers[i]];
        if watchers[i] == w {
          assert w == List()[i];
          return true;
        }
      }
      if nWatchers == EMQ_MAX_WATCHERS {
        return false;
      }
      watchers[nWatchers] := w;
      nWatchers := nWatchers + 1;
      assert List() == old(List()) + [w];
      Arm();
      return true;
    }

    /** EmQueue_Unwatch */
    method Unwatch(w: Watcher)
      requires Valid()
      modifies `nWatchers, watchers
      ensures Valid() && Now() == AfterUnwatch(old(Now()), w)
      ensures w !in List() && (old(HasRoomFor(w)) ==> HasRoomFor(w)) && OnlyConcerns(w)
    {
      hide AfterUnwatch, Sound;
      UnwatchKeeps(Now(), w);
      Remove(w);
    }

    method Remove(w: Watcher)
      requires nWatchers <= watchers.Length
      modifies `nWatchers, watchers
      ensures Now() == AfterUnwatch(old(Now()), w)
      ensures nWatchers == old(nWatchers) - if w in old(List()) then 1 else 0
    {
      hide AfterUnwatch;
      NotListed(Now(), w);
      for i := 0 to nWatchers
        invariant w !in watchers[..i]
      {
        assert watchers[..i + 1] == watchers[..i] + [watchers[i]];
        if watchers[i] == w {
          assert List()[..i] == watchers[..i];
          Found(Now(), w, i);
          FillHole(i);
          return;
        }
      }
    }

    /** watchers[i] = watchers[--nWatchers] */
    method FillHole(i: nat)
      requires i < nWatchers <= watchers.Length
      modifies `nWatchers, watchers
      ensures nWatchers == old(nWatchers) - 1
      ensures List() == old(List()[i := List()[nWatchers - 1]][..nWatchers - 1])
    {
      nWatchers := nWatchers - 1;
      watchers[i] := watchers[nWatchers];
    }

    static lemma NotListed(s: State, w: Watcher)
      ensures w !in s.list ==> AfterUnwatch(s, w) == s
    {}

    static lemma Found(s: State, w: Watcher, i: nat)
      requires i < |s.list| && s.list[i] == w && w !in s.list[..i]
      ensures AfterUnwatch(s, w) == s.(list := s.list[i := s.list[|s.list| - 1]][..|s.list| - 1])
    {
      assert forall j :: 0 <= j < i ==> s.list[..i][j] == s.list[j];
      FirstIs(s.list, w, 0, i);
    }

    /** What a drain, or any other Tcl, does. */
    method Perform(script: Script, ghost depth: nat) returns (ok: bool)
      requires Valid()
      modifies this, watchers
      ensures Valid()
      ensures AfterScript(old(Now()), script, depth) == if ok then Going(Now()) else Panicked
      decreases ScriptSize(script), 0
    {
      match script
      case Done => ok := true;
      case Watch(w, rest) =>
        ok := Watch(w);
        if ok {
          ok := Perform(rest, depth);
        }
      case Unwatch(w, rest) =>
        Unwatch(w);
        ok := Perform(rest, depth);
      case Events(plan, rest) =>
        ok := true;
        if timers > 0 {
          ok := Tick(plan, depth);
        }
        if ok {
          ok := Perform(rest, depth);
        }
    }

    ghost method Called(depth: nat, w: Watcher)
      requires Valid()
      modifies `calls
      ensures Valid() && Now() == old(Now()).(calls := old(calls) + [Call(depth, w)])
    {
      calls := calls + [Call(depth, w)];
    }

    /** The start of a tick: its timer is spent, and it works on a copy of the list. */
    method Begin() returns (local: seq<Watcher>)
      requires Valid() && timers > 0
      modifies `timers, `armed
      ensures Valid() && local == List() && Now() == old(Now()).(armed := false, timers := old(timers) - 1)
    {
      timers := timers - 1;
      armed := false;
      local := watchers[..nWatchers];
    }

    /** Tick, when its timer fires. */
    method Tick(plan: Plan, ghost depth: nat) returns (ok: bool)
      requires Valid() && timers > 0
      modifies this, watchers
      ensures Valid() && (ok ==> Settled(Now()))
      ensures AfterTick(old(Now()), plan, depth) == if ok then Going(Now()) else Panicked
      decreases PlanSize(plan), 1
    {
      hide AfterScript, Distinct, AtDepth;
      TickKeeps(Now(), plan, depth);
      var local := Begin();
      var n, todo := |local|, plan;
      ok := true;
      ghost var start := Now();
      for i := 0 to n
        invariant Valid() && PlanSize(todo) <= PlanSize(plan)
        invariant AfterDrains(start, local, plan, depth) == AfterDrains(Now(), local[i..], todo, depth)
      {
        assert local[i..][1..] == local[i + 1..];
        Called(depth, local[i]);
        if todo.Next? {
          ok := Perform(todo.script, depth + 1);
          if !ok {
            return;
          }
          todo := todo.rest;
        }
      }
      Arm();
    }
  }
}
