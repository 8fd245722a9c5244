/**
 * The same code step by step: a machine whose stack holds what each C function
 * that is under way has left to do. A handler is called in the middle of a drain,
 * a drain in the middle of a tick, and a tick in the middle of a handler that has
 * entered the event loop.
 */
module Machines {
  import opened Delivery
  import opened Interps
  import EmQueues
  import WsChans
  import Httpxs

  datatype Frame =
    /** A handler, or any other Tcl, and the commands it has left. */
    | Acting(script: Script, depth: nat)
    /** Tick, and the watchers of its copy that it has not called. */
    | Ticking(local: seq<EmQueues.Watcher>, plans: Plans, depth: nat)
    /** The loops of the two drains. */
    | WsDraining(plan: Plan, depth: nat)
    | HttpDraining(plan: Plan, depth: nat)

  datatype Stack = Empty | On(top: Frame, below: Stack)

  datatype Machine = Machine(w: World, stack: Stack)

  /** One command, or one turn of a loop. */
  function Step(m: Machine): Machine {
    match m.stack
    case Empty => m
    case On(Acting(script, depth), below) => Command(m.w, script, depth, below)
    case On(Ticking(local, plans, depth), below) =>
      if local == [] then Machine(m.w.(q := EmQueues.Armed(m.w.q)), below)
      else
        var called := m.w.(q := m.w.q.(calls := m.w.q.calls + [EmQueues.Call(depth, local[0])]));
        Machine(called, Called(local[0], First(plans), depth + 1,
                               On(Ticking(local[1..], Others(plans), depth), below)))
    case On(WsDraining(plan, depth), below) =>
      if m.w.ws.queue == [] then Machine(m.w, below)
      else
        var e, taken := m.w.ws.queue[0], m.w.(ws := Delivery.Next(m.w.ws, Take));
        if e.id in m.w.ws.live && plan.Then?
        then Machine(taken, On(Acting(plan.script, depth), On(WsDraining(plan.more, depth), below)))
        else Machine(taken, On(WsDraining(plan, depth), below))
    case On(HttpDraining(plan, depth), below) =>
      if m.w.http.c.queue == [] then Machine(m.w, below)
      else
        var e, taken := m.w.http.c.queue[0], m.w.(http := m.w.http.(c := Delivery.Next(m.w.http.c, Take)));
        if Httpxs.Calling(m.w.http, e) && plan.Then?
        then Machine(taken, On(Acting(plan.script, depth), On(HttpDraining(plan.more, depth), below)))
        else Machine(taken, On(HttpDraining(plan, depth), below))
  }

  /** The drain a watcher stands for. */
  function Called(who: EmQueues.Watcher, plan: Plan, depth: nat, below: Stack): Stack {
    if who == WsChans.DRAIN then On(WsDraining(plan, depth), below)
    else if who == Httpxs.DRAIN then On(HttpDraining(plan, depth), below)
    else below
  }

  function Command(w: World, script: Script, depth: nat, below: Stack): Machine {
    match script
    case Done => Machine(w, below)
    case Do(action, rest) =>
      var on := On(Acting(rest, depth), below);
      match action
      case WsOpen(command) => Machine(AfterWsOpen(w, command), on)
      case WsDestroy(id) => Machine(AfterWsDestroy(w, id), on)
      case WsPush(id, x) => Machine(AfterWsPush(w, id, x), on)
      case HttpStart(asked, progress, early) => Machine(AfterHttpStart(w, asked, progress, early), on)
      case HttpCleanup(id, late) => Machine(AfterHttpCleanup(w, id, late), on)
      case HttpPush(id, y) => Machine(w.(http := Httpxs.AfterPush(w.http, id, y)), on)
      case Events(plans) =>
        if w.q.timers == 0 then Machine(w, on)
        else Machine(w.(q := w.q.(armed := false, timers := w.q.timers - 1)), On(Ticking(w.q.list, plans, depth), on))
  }

  function Steps(m: Machine, n: nat): Machine
    decreases n
  {
    if n == 0 then m else Steps(Step(m), n - 1)
  }

  ghost predicate Gets(m: Machine, to: Machine) { exists n: nat :: Steps(m, n) == to }

  lemma {:induction false} StepsAdd(m: Machine, a: nat, b: nat)
    ensures Steps(m, a + b) == Steps(Steps(m, a), b)
    decreases a
  {
    if a > 0 {
      StepsAdd(Step(m), a - 1, b);
    }
  }

  lemma GetsOn(a: Machine, b: Machine, c: Machine)
    requires Gets(a, b) && Gets(b, c)
    ensures Gets(a, c)
  {
    var i: nat :| Steps(a, i) == b;
    var j: nat :| Steps(b, j) == c;
    StepsAdd(a, i, j);
  }

  lemma FirstStep(a: Machine, c: Machine)
    requires Gets(Step(a), c)
    ensures Gets(a, c)
  {
    var j: nat :| Steps(Step(a), j) == c;
    assert Steps(a, j + 1) == c;
  }

  lemma GetsThere(m: Machine)
    ensures Gets(m, m)
  {
    assert Steps(m, 0) == m;
  }

  /**
   * Every script, tick and drain comes to an end on the machine, with nothing left
   * of it on the stack, in the state that AfterScript, AfterTick and the others give.
   */
  lemma {:induction false} ScriptRuns(w: World, script: Script, depth: nat, below: Stack)
    ensures Gets(Machine(w, On(Acting(script, depth), below)), Machine(AfterScript(w, script, depth), below))
    decreases ScriptSize(script), 0, 0
  {
    hide Gets, AfterWsOpen, AfterWsDestroy, AfterWsPush, AfterHttpStart, AfterHttpCleanup, Httpxs.AfterPush;
    var m, end := Machine(w, On(Acting(script, depth), below)), Machine(AfterScript(w, script, depth), below);
    if script.Done? {
      GetsThere(end);
    } else {
      var on := On(Acting(script.rest, depth), below);
      var v := AfterAction(w, script.action, depth);
      ScriptRuns(v, script.rest, depth, below);
      if script.action.Events? && w.q.timers > 0 {
        assert ActionSize(script.action) == PlansSize(script.action.plans);
        TickRuns(w, script.action.plans, depth, on);
        GetsOn(Step(m), Machine(v, on), end);
      } else {
        assert Step(m) == Machine(v, on);
      }
    }
    FirstStep(m, end);
  }

  lemma {:induction false} TickRuns(w: World, plans: Plans, depth: nat, below: Stack)
    requires w.q.timers > 0
    ensures var spent := w.(q := w.q.(armed := false, timers := w.q.timers - 1));
            Gets(Machine(spent, On(Ticking(w.q.list, plans, depth), below)),
                 Machine(AfterTick(w, plans, depth), below))
    decreases PlansSize(plans), 3, |w.q.list|
  {
    LoopRuns(w.(q := w.q.(armed := false, timers := w.q.timers - 1)), w.q.list, plans, depth, below);
  }

  /** The loop of a tick, and the timer it leaves. */
  lemma {:induction false} LoopRuns(w: World, local: seq<EmQueues.Watcher>, plans: Plans, depth: nat, below: Stack)
    ensures var v := AfterDrains(w, local, plans, depth);
            Gets(Machine(w, On(Ticking(local, plans, depth), below)), Machine(v.(q := EmQueues.Armed(v.q)), below))
    decreases PlansSize(plans), 2, |local|
  {
    hide Gets, EmQueues.Armed, AfterDrain;
    var m, v := Machine(w, On(Ticking(local, plans, depth), below)), AfterDrains(w, local, plans, depth);
    var end := Machine(v.(q := EmQueues.Armed(v.q)), below);
    if local == [] {
      GetsThere(end);
    } else {
      var called := w.(q := w.q.(calls := w.q.calls + [EmQueues.Call(depth, local[0])]));
      var on := On(Ticking(local[1..], Others(plans), depth), below);
      var u := AfterDrain(called, local[0], First(plans), depth + 1);
      DrainRuns(called, local[0], First(plans), depth + 1, on);
      LoopRuns(u, local[1..], Others(plans), depth, below);
      GetsOn(Step(m), Machine(u, on), end);
    }
    FirstStep(m, end);
  }

  lemma {:induction false} DrainRuns(w: World, who: EmQueues.Watcher, plan: Plan, depth: nat, below: Stack)
    ensures Gets(Machine(w, Called(who, plan, depth, below)), Machine(AfterDrain(w, who, plan, depth), below))
    decreases PlanSize(plan), 2, 0
  {
    hide Gets;
    GetsThere(Machine(w, below));
    if who == WsChans.DRAIN {
      WsDrainRuns(w, plan, depth, below);
    } else if who == Httpxs.DRAIN {
      HttpDrainRuns(w, plan, depth, below);
    }
  }

  lemma {:induction false} WsDrainRuns(w: World, plan: Plan, depth: nat, below: Stack)
    ensures Gets(Machine(w, On(WsDraining(plan, depth), below)), Machine(AfterWsDrain(w, plan, depth), below))
    decreases PlanSize(plan), 1, |w.ws.queue|
  {
    hide Gets, AfterScript;
    var m, end := Machine(w, On(WsDraining(plan, depth), below)), Machine(AfterWsDrain(w, plan, depth), below);
    if w.ws.queue == [] {
      GetsThere(end);
    } else {
      var v := w.(ws := Delivery.Next(w.ws, Take));
      if w.ws.queue[0].id in w.ws.live && plan.Then? {
        var on := On(WsDraining(plan.more, depth), below);
        ScriptRuns(v, plan.script, depth, on);
        WsDrainRuns(AfterScript(v, plan.script, depth), plan.more, depth, below);
        GetsOn(Step(m), Machine(AfterScript(v, plan.script, depth), on), end);
      } else {
        WsDrainRuns(v, plan, depth, below);
      }
    }
    FirstStep(m, end);
  }

  lemma {:induction false} HttpDrainRuns(w: World, plan: Plan, depth: nat, below: Stack)
    ensures Gets(Machine(w, On(HttpDraining(plan, depth), below)), Machine(AfterHttpDrain(w, plan, depth), below))
    decreases PlanSize(plan), 1, |w.http.c.queue|
  {
    hide Gets, AfterScript, Httpxs.Calling;
    var m, end := Machine(w, On(HttpDraining(plan, depth), below)), Machine(AfterHttpDrain(w, plan, depth), below);
    if w.http.c.queue == [] {
      GetsThere(end);
    } else {
      var v := w.(http := w.http.(c := Delivery.Next(w.http.c, Take)));
      if Httpxs.Calling(w.http, w.http.c.queue[0]) && plan.Then? {
        var on := On(HttpDraining(plan.more, depth), below);
        ScriptRuns(v, plan.script, depth, on);
        HttpDrainRuns(AfterScript(v, plan.script, depth), plan.more, depth, below);
        GetsOn(Step(m), Machine(AfterScript(v, plan.script, depth), on), end);
      } else {
        HttpDrainRuns(v, plan, depth, below);
      }
    }
    FirstStep(m, end);
  }
}
