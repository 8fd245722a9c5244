/**
 * Both clients on the one queue they share, with the drains themselves: the
 * loops of emscripten/wschan.c and emscripten/httpx.c, run by the ticks of
 * emscripten/emqueue.c. A handler may do anything either client offers, and may
 * enter the event loop, where the timer may fire again.
 */
module Interps {
  import opened Options
  import opened Sequences
  import opened Delivery
  import opened Events
  import opened Registries
  import EmQueues
  import WsChans
  import Httpxs

  /** What Tcl may do that concerns the clients, and what JavaScript may do while it waits. */
  datatype Action =
    | WsOpen(command: string)
    | WsDestroy(id: nat)
    | WsPush(id: nat, x: WsChans.WsEvent)
    /** The events in `early` are queued before the record exists. */
    | HttpStart(asked: Option<string>, progress: Option<string>, early: seq<Httpxs.HttpEvent>)
    /** Aborting a request may queue `late` events for it. */
    | HttpCleanup(id: nat, late: seq<Httpxs.HttpEvent>)
    | HttpPush(id: nat, y: Httpxs.HttpEvent)
    /** The event loop, where the timer may fire. */
    | Events(plans: Plans)

  /** What a handler, or any other Tcl, does. */
  datatype Script = Done | Do(action: Action, rest: Script)

  /** What the handlers called by one drain do, in turn; those past its end do nothing. */
  datatype Plan = Idle | Then(script: Script, more: Plan)

  /** The plans of the drains of one tick. */
  datatype Plans = Quiet | Drains(plan: Plan, others: Plans)

  function ScriptSize(script: Script): nat
    decreases script
  {
    if script.Done? then 0 else 1 + ActionSize(script.action) + ScriptSize(script.rest)
  }

  function ActionSize(action: Action): nat
    decreases action
  {
    if action.Events? then PlansSize(action.plans) else 0
  }

  function PlanSize(plan: Plan): nat
    decreases plan
  {
    match plan
    case Idle => 0
    case Then(script, more) => 1 + ScriptSize(script) + PlanSize(more)
  }

  function PlansSize(plans: Plans): nat
    decreases plans
  {
    match plans
    case Quiet => 0
    case Drains(plan, others) => 1 + PlanSize(plan) + PlansSize(others)
  }

  function First(plans: Plans): Plan { if plans.Quiet? then Idle else plans.plan }

  function Others(plans: Plans): Plans { if plans.Quiet? then Quiet else plans.others }

  // -- on values ----------------------------------------------------------------------

  /** The queue's watchers and timer, the two clients, and the -command each socket was opened with. */
  datatype World = World(q: EmQueues.State, ws: Chan, http: Httpxs.World, commands: map<nat, string>)

  /** EmQueue_Watch, when there is room. */
  function Watching(q: EmQueues.State, w: EmQueues.Watcher): EmQueues.State {
    var r := EmQueues.AfterWatch(q, w);
    if r.Going? then r.s else q
  }

  function AfterWsOpen(w: World, command: string): World {
    w.(ws := Delivery.Next(w.ws, Open), commands := w.commands[w.ws.next := command],
       q := Watching(w.q, WsChans.DRAIN))
  }

  function AfterWsDestroy(w: World, id: nat): World {
    if id !in w.ws.live then w
    else
      var ws := Delivery.Next(w.ws, Destroy(id));
      w.(ws := ws, q := if ws.live == {} then EmQueues.AfterUnwatch(w.q, WsChans.DRAIN) else w.q)
  }

  function AfterWsPush(w: World, id: nat, x: WsChans.WsEvent): World {
    if 0 < id < w.ws.next then w.(ws := Delivery.Next(w.ws, Push(Event(id, WsChans.WsFields(x))))) else w
  }

  function AfterHttpStart(w: World, asked: Option<string>, progress: Option<string>, early: seq<Httpxs.HttpEvent>)
    : World
  {
    w.(http := Httpxs.AfterStart(w.http, asked, progress, early), q := Watching(w.q, Httpxs.DRAIN))
  }

  function AfterHttpCleanup(w: World, id: nat, late: seq<Httpxs.HttpEvent>): World {
    if id !in w.http.c.live then w
    else
      var http := Httpxs.AfterClean(w.http, id, late);
      w.(http := http, q := if http.c.live == {} then EmQueues.AfterUnwatch(w.q, Httpxs.DRAIN) else w.q)
  }

  function AfterAction(w: World, action: Action, depth: nat): World
    decreases ActionSize(action), 4, 0
  {
    match action
    case WsOpen(command) => AfterWsOpen(w, command)
    case WsDestroy(id) => AfterWsDestroy(w, id)
    case WsPush(id, x) => AfterWsPush(w, id, x)
    case HttpStart(asked, progress, early) => AfterHttpStart(w, asked, progress, early)
    case HttpCleanup(id, late) => AfterHttpCleanup(w, id, late)
    case HttpPush(id, y) => w.(http := Httpxs.AfterPush(w.http, id, y))
    case Events(plans) => if w.q.timers > 0 then AfterTick(w, plans, depth) else w
  }

  function AfterScript(w: World, script: Script, depth: nat): World
    decreases ScriptSize(script), 0, 0
  {
    if script.Done? then w else AfterScript(AfterAction(w, script.action, depth), script.rest, depth)
  }

  function AfterTick(w: World, plans: Plans, depth: nat): World
    requires w.q.timers > 0
    decreases PlansSize(plans), 3, |w.q.list|
  {
    var v := AfterDrains(w.(q := w.q.(armed := false, timers := w.q.timers - 1)), w.q.list, plans, depth);
    v.(q := EmQueues.Armed(v.q))
  }

  /** The drains still to run, from the copy the tick made of the list. */
  function AfterDrains(w: World, local: seq<EmQueues.Watcher>, plans: Plans, depth: nat): World
    decreases PlansSize(plans), 2, |local|
  {
    if local == [] then w
    else
      var called := w.(q := w.q.(calls := w.q.calls + [EmQueues.Call(depth, local[0])]));
      AfterDrains(AfterDrain(called, local[0], First(plans), depth + 1), local[1..], Others(plans), depth)
  }

  function AfterDrain(w: World, who: EmQueues.Watcher, plan: Plan, depth: nat): World
    decreases PlanSize(plan), 2, 0
  {
    if who == WsChans.DRAIN then AfterWsDrain(w, plan, depth)
    else if who == Httpxs.DRAIN then AfterHttpDrain(w, plan, depth)
    else w
  }

  /** Each event in turn, and after it the handler of its socket, if that is still live. */
  function AfterWsDrain(w: World, plan: Plan, depth: nat): World
    decreases PlanSize(plan), 1, |w.ws.queue|
  {
    if w.ws.queue == [] then w
    else
      var v := w.(ws := Delivery.Next(w.ws, Take));
      if w.ws.queue[0].id in w.ws.live && plan.Then? then
        AfterWsDrain(AfterScript(v, plan.script, depth), plan.more, depth)
      else AfterWsDrain(v, plan, depth)
  }

  /** Each event in turn, and after it the callback it asks for, if there is one. */
  function AfterHttpDrain(w: World, plan: Plan, depth: nat): World
    decreases PlanSize(plan), 1, |w.http.c.queue|
  {
    if w.http.c.queue == [] then w
    else
      var v := w.(http := w.http.(c := Delivery.Next(w.http.c, Take)));
      if Httpxs.Calling(w.http, w.http.c.queue[0]) && plan.Then? then
        AfterHttpDrain(AfterScript(v, plan.script, depth), plan.more, depth)
      else AfterHttpDrain(v, plan, depth)
  }

  // -- what holds of every interleaving ---------------------------------------------------

  /** Each client is watched exactly while its list is non-empty, and nobody else is. */
  ghost predicate InStep(w: World) {
    && EmQueues.Sound(w.q)
    && (WsChans.DRAIN in w.q.list <==> w.ws.live != {})
    && (Httpxs.DRAIN in w.q.list <==> w.http.c.live != {})
    && forall x :: x in w.q.list ==> x == WsChans.DRAIN || x == Httpxs.DRAIN
  }

  /** Outside a tick: a live socket or request has a timer coming. */
  ghost predicate Served(w: World) {
    InStep(w) && (w.ws.live != {} || w.http.c.live != {} ==> w.q.armed && w.q.timers == 1)
  }

  /** Two watchers leave room, so watching never panics. */
  lemma RoomForBoth(w: World)
    requires InStep(w)
    ensures |w.q.list| <= 2 < EmQueues.EMQ_MAX_WATCHERS
  {
    DistinctFits(w.q.list, {WsChans.DRAIN, Httpxs.DRAIN});
  }

  lemma WatchingInStep(w: World, who: EmQueues.Watcher, depth: nat)
    requires InStep(w) && (who == WsChans.DRAIN || who == Httpxs.DRAIN)
    ensures var r := Watching(w.q, who);
            && EmQueues.AfterWatch(w.q, who) == EmQueues.Going(r)
            && EmQueues.AfterScript(w.q, EmQueues.Watch(who, EmQueues.Done), depth) == EmQueues.Going(r)
            && forall x :: x in r.list <==> x in w.q.list || x == who
  {
    RoomForBoth(w);
    EmQueues.WatchKeeps(w.q, who);
  }

  /** The timer is coming exactly when the queue is settled. */
  lemma ServedIsSettled(w: World)
    requires InStep(w)
    ensures Served(w) <==> EmQueues.Settled(w.q)
  {
    if w.q.list != [] {
      assert w.q.list[0] in w.q.list;
    }
  }

  /** To the queue, what happened is one script of its own protocol. */
  ghost predicate Scripted(q: EmQueues.State, r: EmQueues.State, depth: nat) {
    exists script :: EmQueues.AfterScript(q, script, depth) == EmQueues.Going(r)
  }

  /** No id is handed out twice, and what it was opened or started with stays. */
  ghost predicate Recalls(w: World, v: World) {
    && w.ws.next <= v.ws.next && w.http.c.next <= v.http.c.next
    && (forall id :: id in w.commands && id < w.ws.next ==> id in v.commands && v.commands[id] == w.commands[id])
    && (forall id :: id in w.http.given && id < w.http.c.next ==>
          id in v.http.given && v.http.given[id] == w.http.given[id])
  }

  /** Each client is at the same moment or a later one. */
  ghost predicate Moves(w: World, v: World) {
    Advances(w.ws, v.ws) && Advances(w.http.c, v.http.c)
  }

  /** v follows from w, whatever ticks there were being at least this deep. */
  ghost predicate Follows(w: World, v: World, depth: nat) {
    && InStep(v) && (Served(w) ==> Served(v)) && Recalls(w, v) && Moves(w, v)
    && Scripted(w.q, v.q, depth) && EmQueues.Deeper(w.q.calls, v.q.calls, depth)
  }

  /** What the queue's protocol does to a queue is all there is to show of it. */
  lemma ScriptFollows(w: World, v: World, script: EmQueues.Script, depth: nat)
    requires InStep(w) && EmQueues.AfterScript(w.q, script, depth) == EmQueues.Going(v.q)
    requires (WsChans.DRAIN in v.q.list <==> v.ws.live != {}) && (Httpxs.DRAIN in v.q.list <==> v.http.c.live != {})
    requires (forall x :: x in v.q.list ==> x == WsChans.DRAIN || x == Httpxs.DRAIN) && Recalls(w, v) && Moves(w, v)
    ensures Follows(w, v, depth)
  {
    hide EmQueues.Sound, EmQueues.AfterScript, Recalls, Moves;
    EmQueues.ScriptKeeps(w.q, script, depth);
    ServedIsSettled(w);
    ServedIsSettled(v);
  }

  lemma FollowsOn(a: World, b: World, c: World, depth: nat)
    requires Follows(a, b, depth) && Follows(b, c, depth)
    ensures Follows(a, c, depth)
  {
    hide InStep, Served, EmQueues.AfterScript, Advances;
    AdvancesOn(a.ws, b.ws, c.ws);
    AdvancesOn(a.http.c, b.http.c, c.http.c);
    var first :| EmQueues.AfterScript(a.q, first, depth) == EmQueues.Going(b.q);
    var second :| EmQueues.AfterScript(b.q, second, depth) == EmQueues.Going(c.q);
    EmQueues.AppendFollows(a.q, first, second, depth);
  }

  /** Neither client moves. */
  lemma StaysPut(w: World, depth: nat)
    requires InStep(w)
    ensures Follows(w, w, depth)
  {
    AdvancesNot(w.ws);
    AdvancesNot(w.http.c);
    hide Advances;
    ScriptFollows(w, w, EmQueues.Done, depth);
  }

  lemma WsOpenInStep(w: World, command: string, depth: nat)
    requires InStep(w)
    ensures Follows(w, AfterWsOpen(w, command), depth)
  {
    hide EmQueues.Sound, EmQueues.AfterWatch, Watching, Advances;
    StepAdvances(w.ws, Open);
    AdvancesNot(w.http.c);
    WatchingInStep(w, WsChans.DRAIN, depth);
    ScriptFollows(w, AfterWsOpen(w, command), EmQueues.Watch(WsChans.DRAIN, EmQueues.Done), depth);
  }

  lemma WsDestroyInStep(w: World, id: nat, depth: nat)
    requires InStep(w)
    ensures Follows(w, AfterWsDestroy(w, id), depth)
  {
    hide EmQueues.Sound, EmQueues.AfterUnwatch, Advances;
    AdvancesNot(w.http.c);
    AdvancesNot(w.ws);
    if id in w.ws.live {
      StepAdvances(w.ws, Destroy(id));
    }
    EmQueues.UnwatchKeeps(w.q, WsChans.DRAIN);
    var v := AfterWsDestroy(w, id);
    var last := id in w.ws.live && v.ws.live == {};
    ScriptFollows(w, v, if last then EmQueues.Unwatch(WsChans.DRAIN, EmQueues.Done) else EmQueues.Done, depth);
  }

  /** The same ids are live, and the requests are as they were made. */
  lemma {:induction false} PushesKeepLive(h: Httpxs.World, id: nat, xs: seq<Httpxs.HttpEvent>)
    ensures var g := Httpxs.AfterPushes(h, id, xs);
            g.c.live == h.c.live && g.c.next == h.c.next && g.given == h.given && Advances(h.c, g.c)
    decreases |xs|
  {
    hide Advances;
    AdvancesNot(h.c);
    if xs != [] {
      var most := Httpxs.AfterPushes(h, id, xs[..|xs| - 1]);
      PushesKeepLive(h, id, xs[..|xs| - 1]);
      HttpPushIsSame(most, id, xs[|xs| - 1]);
      AdvancesOn(h.c, most.c, Httpxs.AfterPushes(h, id, xs).c);
    }
  }

  lemma HttpStartInStep(w: World, asked: Option<string>, progress: Option<string>, early: seq<Httpxs.HttpEvent>,
                        depth: nat)
    requires InStep(w)
    ensures Follows(w, AfterHttpStart(w, asked, progress, early), depth)
  {
    hide EmQueues.Sound, EmQueues.AfterWatch, Watching, Httpxs.AfterPushes, Advances;
    AdvancesNot(w.ws);
    WatchingInStep(w, Httpxs.DRAIN, depth);
    StartLive(w.http, asked, progress, early);
    ScriptFollows(w, AfterHttpStart(w, asked, progress, early), EmQueues.Watch(Httpxs.DRAIN, EmQueues.Done), depth);
  }

  lemma StartLive(h: Httpxs.World, asked: Option<string>, progress: Option<string>, early: seq<Httpxs.HttpEvent>)
    ensures var g := Httpxs.AfterStart(h, asked, progress, early);
            && g.c.live == h.c.live + {h.c.next} && g.c.next == h.c.next + 1
            && g.given == h.given[h.c.next := Httpxs.Fresh(asked, progress)] && Advances(h.c, g.c)
  {
    hide Advances;
    StepAdvances(h.c, Open);
    var given := h.given[h.c.next := Httpxs.Fresh(asked, progress)];
    var started := Httpxs.World(Delivery.Next(h.c, Open), h.reqs + {h.c.next}, given);
    PushesKeepLive(started, h.c.next, early);
    AdvancesOn(h.c, started.c, Httpxs.AfterPushes(started, h.c.next, early).c);
  }

  lemma CleanLive(h: Httpxs.World, id: nat, late: seq<Httpxs.HttpEvent>)
    ensures var g := Httpxs.AfterClean(h, id, late);
            g.c.live == h.c.live - {id} && g.c.next == h.c.next && g.given == h.given && Advances(h.c, g.c)
  {
    hide Advances;
    AdvancesNot(h.c);
    PushesKeepLive(h, id, late);
    var v := if id in h.reqs then Httpxs.AfterPushes(h, id, late) else h;
    if id in h.c.live {
      StepAdvances(v.c, Destroy(id));
      AdvancesOn(h.c, v.c, Delivery.Next(v.c, Destroy(id)));
    }
  }

  lemma HttpCleanupInStep(w: World, id: nat, late: seq<Httpxs.HttpEvent>, depth: nat)
    requires InStep(w)
    ensures Follows(w, AfterHttpCleanup(w, id, late), depth)
  {
    hide EmQueues.Sound, EmQueues.AfterUnwatch, Httpxs.AfterClean, Advances;
    AdvancesNot(w.ws);
    AdvancesNot(w.http.c);
    EmQueues.UnwatchKeeps(w.q, Httpxs.DRAIN);
    CleanLive(w.http, id, late);
    var v := AfterHttpCleanup(w, id, late);
    var last := id in w.http.c.live && v.http.c.live == {};
    ScriptFollows(w, v, if last then EmQueues.Unwatch(Httpxs.DRAIN, EmQueues.Done) else EmQueues.Done, depth);
  }

  /** Events come and go without anybody watching or leaving. */
  lemma SameLists(w: World, v: World, depth: nat)
    requires InStep(w) && v.q == w.q && v.ws.live == w.ws.live && v.http.c.live == w.http.c.live
    requires Recalls(w, v) && Moves(w, v)
    ensures Follows(w, v, depth)
  {
    ScriptFollows(w, v, EmQueues.Done, depth);
  }

  lemma WsPushInStep(w: World, id: nat, x: WsChans.WsEvent, depth: nat)
    requires InStep(w)
    ensures Follows(w, AfterWsPush(w, id, x), depth)
  {
    hide Advances;
    PushIsSame(w, id, x);
    SameLists(w, AfterWsPush(w, id, x), depth);
  }

  lemma HttpPushInStep(w: World, id: nat, y: Httpxs.HttpEvent, depth: nat)
    requires InStep(w)
    ensures Follows(w, w.(http := Httpxs.AfterPush(w.http, id, y)), depth)
  {
    hide Advances;
    HttpPushIsSame(w.http, id, y);
    AdvancesNot(w.ws);
    SameLists(w, w.(http := Httpxs.AfterPush(w.http, id, y)), depth);
  }

  lemma {:induction false} ActionInStep(w: World, action: Action, depth: nat)
    requires InStep(w)
    ensures Follows(w, AfterAction(w, action, depth), depth)
    decreases ActionSize(action), 4, 0
  {
    hide InStep, Served, EmQueues.Deeper, AfterWsOpen, AfterWsDestroy, AfterWsPush, AfterHttpStart;
    hide AfterHttpCleanup, AfterTick, Httpxs.AfterPush;
    match action
    case WsOpen(command) => WsOpenInStep(w, command, depth);
    case WsDestroy(id) => WsDestroyInStep(w, id, depth);
    case WsPush(id, x) => WsPushInStep(w, id, x, depth);
    case HttpStart(asked, progress, early) => HttpStartInStep(w, asked, progress, early, depth);
    case HttpCleanup(id, late) => HttpCleanupInStep(w, id, late, depth);
    case HttpPush(id, y) => HttpPushInStep(w, id, y, depth);
    case Events(plans) =>
      if w.q.timers > 0 {
        TickInStep(w, plans, depth);
      } else {
        StaysPut(w, depth);
      }
  }

  /**
   * Over everything handlers of both clients may do, nested ticks included: each
   * client is watched exactly while its list is non-empty, and outside a tick a
   * live socket or request has one timer coming.
   */
  lemma {:induction false} ScriptInStep(w: World, script: Script, depth: nat)
    requires InStep(w)
    ensures Follows(w, AfterScript(w, script, depth), depth)
    decreases ScriptSize(script), 0, 0
  {
    StaysPut(w, depth);
    hide InStep, Served, EmQueues.Deeper, AfterAction;
    if script.Do? {
      ActionInStep(w, script.action, depth);
      var v := AfterAction(w, script.action, depth);
      ScriptInStep(v, script.rest, depth);
      FollowsOn(w, v, AfterScript(v, script.rest, depth), depth);
    }
  }

  lemma PushIsSame(w: World, id: nat, x: WsChans.WsEvent)
    ensures var v := AfterWsPush(w, id, x);
            && v.q == w.q && v.ws.live == w.ws.live && v.ws.next == w.ws.next
            && v.http == w.http && v.commands == w.commands && Moves(w, v)
  {
    hide Advances;
    AdvancesNot(w.ws);
    AdvancesNot(w.http.c);
    if 0 < id < w.ws.next {
      StepAdvances(w.ws, Push(Event(id, WsChans.WsFields(x))));
    }
  }

  lemma HttpPushIsSame(h: Httpxs.World, id: nat, y: Httpxs.HttpEvent)
    ensures var g := Httpxs.AfterPush(h, id, y);
            g.c.live == h.c.live && g.c.next == h.c.next && g.given == h.given && Advances(h.c, g.c)
  {
    hide Advances;
    AdvancesNot(h.c);
    if 0 < id < h.c.next {
      StepAdvances(h.c, Push(Event(id, Httpxs.HttpFields(y))));
    }
  }

  /**
   * A tick is one of the queue's protocol. So it runs each drain that was watched
   * when it began once, in order, and leaves a timer if anybody needs one.
   */
  lemma {:induction false} TickInStep(w: World, plans: Plans, depth: nat)
    requires InStep(w) && w.q.timers > 0
    ensures var r := AfterTick(w, plans, depth);
            && Follows(w, r, depth) && Served(r)
            && EmQueues.AtDepth(r.q.calls, depth) == EmQueues.AtDepth(w.q.calls, depth) + w.q.list
    decreases PlansSize(plans), 3, |w.q.list|
  {
    hide EmQueues.AtDepth, AfterDrains, EmQueues.Deeper, EmQueues.AfterDrains, Recalls, Advances;
    var v := w.(q := w.q.(armed := false, timers := w.q.timers - 1));
    var plan := DrainsInStep(v, w.q.list, plans, depth);
    var r := AfterTick(w, plans, depth);
    assert EmQueues.AfterTick(w.q, plan, depth) == EmQueues.Going(r.q);
    EmQueues.TickKeeps(w.q, plan, depth);
    OneTick(w.q, plan, depth);
    RecallsTick(w, v, AfterDrains(v, w.q.list, plans, depth), r);
    ScriptFollows(w, r, EmQueues.Events(plan, EmQueues.Done), depth);
    ServedIsSettled(r);
  }

  lemma OneTick(q: EmQueues.State, plan: EmQueues.Plan, depth: nat)
    requires q.timers > 0 && EmQueues.AfterTick(q, plan, depth).Going?
    ensures EmQueues.AfterScript(q, EmQueues.Events(plan, EmQueues.Done), depth) == EmQueues.AfterTick(q, plan, depth)
  {}

  lemma RecallsTick(w: World, v: World, u: World, r: World)
    requires Recalls(v, u) && v == w.(q := v.q) && r == u.(q := r.q)
    ensures Recalls(w, r)
  {}

  /** What the drains do to the queue, as a plan for its protocol. */
  lemma {:induction false} DrainsInStep(w: World, local: seq<EmQueues.Watcher>, plans: Plans, depth: nat)
    returns (plan: EmQueues.Plan)
    requires InStep(w)
    ensures var r := AfterDrains(w, local, plans, depth);
            && InStep(r) && Recalls(w, r) && Moves(w, r)
            && EmQueues.AfterDrains(w.q, local, plan, depth) == EmQueues.Going(r.q)
    decreases PlansSize(plans), 2, |local|
  {
    hide AfterDrain, EmQueues.Sound, EmQueues.AfterScript, EmQueues.Deeper, Advances;
    AdvancesNot(w.ws);
    AdvancesNot(w.http.c);
    plan := EmQueues.Quiet;
    if local != [] {
      var called := w.(q := w.q.(calls := w.q.calls + [EmQueues.Call(depth, local[0])]));
      var v := AfterDrain(called, local[0], First(plans), depth + 1);
      CallNoted(w, EmQueues.Call(depth, local[0]));
      DrainInStep(called, local[0], First(plans), depth + 1);
      var script :| EmQueues.AfterScript(called.q, script, depth + 1) == EmQueues.Going(v.q);
      var rest := DrainsInStep(v, local[1..], Others(plans), depth);
      plan := EmQueues.Next(script, rest);
      AdvancesOn(w.ws, v.ws, AfterDrains(v, local[1..], Others(plans), depth).ws);
      AdvancesOn(w.http.c, v.http.c, AfterDrains(v, local[1..], Others(plans), depth).http.c);
    }
  }

  lemma {:induction false} DrainInStep(w: World, who: EmQueues.Watcher, plan: Plan, depth: nat)
    requires InStep(w)
    ensures Follows(w, AfterDrain(w, who, plan, depth), depth)
    decreases PlanSize(plan), 2, 0
  {
    StaysPut(w, depth);
    hide InStep, Served, EmQueues.Deeper;
    if who == WsChans.DRAIN {
      WsDrainInStep(w, plan, depth);
    } else if who == Httpxs.DRAIN {
      HttpDrainInStep(w, plan, depth);
    }
  }

  /** The drain leaves no event, whatever the handlers do. */
  lemma {:induction false} WsDrainInStep(w: World, plan: Plan, depth: nat)
    requires InStep(w)
    ensures Follows(w, AfterWsDrain(w, plan, depth), depth) && AfterWsDrain(w, plan, depth).ws.queue == []
    decreases PlanSize(plan), 1, |w.ws.queue|
  {
    StaysPut(w, depth);
    if w.ws.queue != [] {
      var v := w.(ws := Delivery.Next(w.ws, Take));
      StepAdvances(w.ws, Take);
      AdvancesNot(w.http.c);
      hide Advances;
      SameLists(w, v, depth);
      hide InStep, Served, EmQueues.Deeper;
      if w.ws.queue[0].id in w.ws.live && plan.Then? {
        var u := AfterScript(v, plan.script, depth);
        ScriptInStep(v, plan.script, depth);
        FollowsOn(w, v, u, depth);
        WsDrainInStep(u, plan.more, depth);
        FollowsOn(w, u, AfterWsDrain(u, plan.more, depth), depth);
      } else {
        WsDrainInStep(v, plan, depth);
        FollowsOn(w, v, AfterWsDrain(v, plan, depth), depth);
      }
    }
  }

  lemma {:induction false} HttpDrainInStep(w: World, plan: Plan, depth: nat)
    requires InStep(w)
    ensures Follows(w, AfterHttpDrain(w, plan, depth), depth) && AfterHttpDrain(w, plan, depth).http.c.queue == []
    decreases PlanSize(plan), 1, |w.http.c.queue|
  {
    StaysPut(w, depth);
    if w.http.c.queue != [] {
      var v := w.(http := w.http.(c := Delivery.Next(w.http.c, Take)));
      StepAdvances(w.http.c, Take);
      AdvancesNot(w.ws);
      hide Advances;
      SameLists(w, v, depth);
      hide InStep, Served, EmQueues.Deeper, Httpxs.Calling;
      if Httpxs.Calling(w.http, w.http.c.queue[0]) && plan.Then? {
        var u := AfterScript(v, plan.script, depth);
        ScriptInStep(v, plan.script, depth);
        FollowsOn(w, v, u, depth);
        HttpDrainInStep(u, plan.more, depth);
        FollowsOn(w, u, AfterHttpDrain(u, plan.more, depth), depth);
      } else {
        HttpDrainInStep(v, plan, depth);
        FollowsOn(w, v, AfterHttpDrain(v, plan, depth), depth);
      }
    }
  }

  /**
   * A tick delivers, whatever the handlers do: of each client that was watched
   * when it began, all that waited has been taken, and every id that is still live
   * has been served all of it.
   */
  lemma TickDelivers(w: World, plans: Plans, depth: nat)
    requires InStep(w) && w.q.timers > 0 && Sound(w.ws) && Sound(w.http.c)
    ensures var r := AfterTick(w, plans, depth);
            && (WsChans.DRAIN in w.q.list ==> Delivered(w.ws, r.ws))
            && (Httpxs.DRAIN in w.q.list ==> Delivered(w.http.c, r.http.c))
  {
    hide AfterDrains, Delivered, Advances, Sound;
    var v := w.(q := w.q.(armed := false, timers := w.q.timers - 1));
    AdvancesNot(w.ws);
    AdvancesNot(w.http.c);
    DrainsDeliver(w, v, w.q.list, plans, depth);
  }

  /** The drains still to run, for what waited at some moment before. */
  lemma {:induction false} DrainsDeliver(start: World, w: World, local: seq<EmQueues.Watcher>, plans: Plans,
                                         depth: nat)
    requires InStep(w) && Moves(start, w) && Sound(start.ws) && Sound(start.http.c)
    ensures var r := AfterDrains(w, local, plans, depth);
            && (WsChans.DRAIN in local ==> Delivered(start.ws, r.ws))
            && (Httpxs.DRAIN in local ==> Delivered(start.http.c, r.http.c))
    decreases |local|
  {
    hide Delivered, Advances, Sound, InStep, Recalls, Scripted, Served, EmQueues.Deeper;
    if local != [] {
      var who := local[0];
      var called := w.(q := w.q.(calls := w.q.calls + [EmQueues.Call(depth, who)]));
      var v := AfterDrain(called, who, First(plans), depth + 1);
      var r := AfterDrains(v, local[1..], Others(plans), depth);
      CallNoted(w, EmQueues.Call(depth, who));
      DrainInStep(called, who, First(plans), depth + 1);
      var plan := DrainsInStep(v, local[1..], Others(plans), depth);
      AdvancesOn(start.ws, w.ws, v.ws);
      AdvancesOn(start.http.c, w.http.c, v.http.c);
      DrainsDeliver(start, v, local[1..], Others(plans), depth);
      if who == WsChans.DRAIN {
        WsDrainInStep(called, First(plans), depth + 1);
        EmptiedStays(start.ws, v.ws, r.ws);
      }
      if who == Httpxs.DRAIN {
        HttpDrainInStep(called, First(plans), depth + 1);
        EmptiedStays(start.http.c, v.http.c, r.http.c);
      }
      assert local == [who] + local[1..];
    }
  }

  lemma EmptiedStays(start: Chan, emptied: Chan, end: Chan)
    requires Sound(start) && Advances(start, emptied) && emptied.queue == [] && Advances(emptied, end)
    ensures Delivered(start, end)
  {
    EmptiedIsDelivered(start, emptied);
    StaysDelivered(start, emptied, end);
  }

  /** No handler does anything. */
  predicate NoScripts(plans: Plans)
    decreases plans
  {
    plans.Quiet? || (plans.plan.Idle? && NoScripts(plans.others))
  }

  /** Then a tick leaves nothing waiting for a client that was watched, and queues nothing. */
  lemma {:induction false} QuietTickEmpties(w: World, plans: Plans, depth: nat)
    requires w.q.timers > 0 && NoScripts(plans)
    ensures var r := AfterTick(w, plans, depth);
            && (WsChans.DRAIN in w.q.list ==> r.ws.queue == []) && (Httpxs.DRAIN in w.q.list ==> r.http.c.queue == [])
            && r.ws.queued == w.ws.queued && r.ws.live == w.ws.live
            && r.http.c.queued == w.http.c.queued && r.http.c.live == w.http.c.live
  {
    QuietDrainsEmpty(w.(q := w.q.(armed := false, timers := w.q.timers - 1)), w.q.list, plans, depth);
  }

  lemma {:induction false} QuietDrainsEmpty(w: World, local: seq<EmQueues.Watcher>, plans: Plans, depth: nat)
    requires NoScripts(plans)
    ensures var r := AfterDrains(w, local, plans, depth);
            && (WsChans.DRAIN in local || w.ws.queue == [] ==> r.ws.queue == [])
            && (Httpxs.DRAIN in local || w.http.c.queue == [] ==> r.http.c.queue == [])
            && r.ws.queued == w.ws.queued && r.ws.live == w.ws.live
            && r.http.c.queued == w.http.c.queued && r.http.c.live == w.http.c.live
    decreases |local|
  {
    if local != [] {
      var called := w.(q := w.q.(calls := w.q.calls + [EmQueues.Call(depth, local[0])]));
      QuietWsDrain(called, depth + 1);
      QuietHttpDrain(called, depth + 1);
      QuietDrainsEmpty(AfterDrain(called, local[0], First(plans), depth + 1), local[1..], Others(plans), depth);
    }
  }

  lemma {:induction false} QuietWsDrain(w: World, depth: nat)
    ensures var r := AfterWsDrain(w, Idle, depth);
            && r.ws.queue == [] && r.ws.queued == w.ws.queued && r.ws.live == w.ws.live
            && r.http == w.http && r.q == w.q
    decreases |w.ws.queue|
  {
    if w.ws.queue != [] {
      QuietWsDrain(w.(ws := Delivery.Next(w.ws, Take)), depth);
    }
  }

  lemma {:induction false} QuietHttpDrain(w: World, depth: nat)
    ensures var r := AfterHttpDrain(w, Idle, depth);
            && r.http.c.queue == [] && r.http.c.queued == w.http.c.queued && r.http.c.live == w.http.c.live
            && r.ws == w.ws && r.q == w.q
    decreases |w.http.c.queue|
  {
    hide Httpxs.Calling;
    if w.http.c.queue != [] {
      QuietHttpDrain(w.(http := w.http.(c := Delivery.Next(w.http.c, Take))), depth);
    }
  }

  lemma TimerSpent(w: World)
    requires InStep(w) && w.q.timers > 0
    ensures InStep(w.(q := w.q.(armed := false, timers := w.q.timers - 1)))
  {}

  lemma TimerSet(w: World)
    requires InStep(w)
    ensures InStep(w.(q := EmQueues.Armed(w.q)))
  {}

  lemma CallNoted(w: World, c: EmQueues.Call)
    requires InStep(w)
    ensures InStep(w.(q := w.q.(calls := w.q.calls + [c])))
  {}

  // -- as it is run ------------------------------------------------------------------------

  class Interp {
    const emq: EmQueues.EmQueue
    const ws: WsChans.WsChan
    const http: Httpxs.Httpx

    constructor ()
      ensures Valid() && Served(Now()) && ws.js.history == [] && http.js.history == []
    {
      var queue := new EmQueues.EmQueue();
      var sockets := new WsChans.WsChan(queue);
      var requests := new Httpxs.Httpx(queue);
      emq, ws, http := queue, sockets, requests;
    }

    ghost function Now(): World
      reads emq, emq.watchers, ws`commands, ws.js, http`given, http.js
    {
      World(emq.Now(), ws.js.Now(), http.Here(), ws.commands)
    }

    /** Both clients in good order, on one queue that nobody else watches. */
    ghost predicate Valid()
      reads emq, emq.watchers, ws, ws.js, ws.sockets, ws.sockets.list, http, http.js, http.requests, http.requests.list
    {
      ws.emq == emq && http.emq == emq && ws.js != http.js && ws.Valid() && http.Valid() && InStep(Now())
    }

    /** Records come from before or are new, and what has happened stays. */
    twostate predicate Onward()
      reads ws.js, ws.sockets, http.js, http.requests
    {
      && old(ws.js.history) <= ws.js.history && old(http.js.history) <= http.js.history
      && (forall i :: 0 <= i < |ws.sockets.list| ==>
            ws.sockets.list[i] in old(ws.sockets.list) || fresh(ws.sockets.list[i]))
      && (forall i :: 0 <= i < |http.requests.list| ==>
            http.requests.list[i] in old(http.requests.list) || fresh(http.requests.list[i]))
    }

    /** What a client's own step leaves for the other to know. */
    lemma StillWatched()
      requires emq.Valid() && InStep(Now()) && ws.emq == emq && http.emq == emq
      requires ws.js.live == ws.sockets.Ids() && ws.sockets.Linked()
      requires http.js.live == http.requests.Ids() && http.requests.Linked()
      ensures ws.Watched() && http.Watched()
    {
      RoomForBoth(Now());
      ws.sockets.HeadTells();
      http.requests.HeadTells();
    }

    // -- the commands and the JavaScript handlers, as the other client sees them ---------------

    method OpenWs(command: string) returns (id: nat)
      requires Valid()
      modifies ws`commands, ws.js, ws.sockets, emq, emq.watchers
      ensures Valid() && Now() == AfterWsOpen(old(Now()), command) && Onward()
      ensures id == old(ws.js.next) && id in ws.js.live && ws.commands[id] == command
    {
      hide EmQueues.Sound, EmQueues.AfterWatch, EmQueues.AfterUnwatch, InStep, JsState.Valid, Recalls, Moves, Scripted;
      hide WsChans.WsChan.Reported, Httpxs.Httpx.Reported, Registry.Linked;
      WsOpenInStep(Now(), command, 0);
      id := ws.Open(command);
      StillWatched();
    }

    method DestroyWs(id: nat) returns (ok: bool)
      requires Valid()
      modifies ws.js, ws.sockets, ws.sockets.list`next, emq, emq.watchers
      ensures Valid() && Now() == AfterWsDestroy(old(Now()), id) && Onward()
      ensures ok == (id in old(ws.js.live)) && id !in ws.js.live
    {
      hide EmQueues.Sound, EmQueues.AfterWatch, EmQueues.AfterUnwatch, InStep, JsState.Valid, Recalls, Moves, Scripted;
      hide WsChans.WsChan.Reported, Httpxs.Httpx.Reported, Registry.Linked;
      WsDestroyInStep(Now(), id, 0);
      ok := ws.Destroy(id);
      StillWatched();
    }

    /** JavaScript has handlers only for ids it has handed out. */
    method PushWs(id: nat, x: WsChans.WsEvent)
      requires Valid()
      modifies ws.js
      ensures Valid() && Now() == AfterWsPush(old(Now()), id, x) && Onward()
      ensures ws.js.queue == old(ws.js.queue) + if 0 < id < ws.js.next then [Event(id, WsChans.WsFields(x))] else []
    {
      hide EmQueues.Sound, EmQueues.AfterWatch, EmQueues.AfterUnwatch, InStep, JsState.Valid, Recalls, Moves, Scripted;
      hide WsChans.WsChan.Reported, Httpxs.Httpx.Reported, Registry.Linked;
      WsPushInStep(Now(), id, x, 0);
      if 0 < id < ws.js.next {
        ws.Push(id, x);
      }
    }

    method StartHttp(asked: Option<string>, progress: Option<string>, early: seq<Httpxs.HttpEvent>) returns (id: nat)
      requires Valid()
      modifies http`given, http.js, http.requests, emq, emq.watchers
      ensures Valid() && Now() == AfterHttpStart(old(Now()), asked, progress, early) && Onward()
      ensures id == old(http.js.next) && id in http.js.live
      ensures http.given[id] == Httpxs.Request(asked, progress, "", 0, "")
    {
      hide EmQueues.Sound, EmQueues.AfterWatch, EmQueues.AfterUnwatch, InStep, JsState.Valid, Recalls, Moves, Scripted;
      hide WsChans.WsChan.Reported, Httpxs.Httpx.Reported, Registry.Linked;
      HttpStartInStep(Now(), asked, progress, early, 0);
      id := http.Start(asked, progress, early);
      StillWatched();
    }

    method CleanupHttp(id: nat, late: seq<Httpxs.HttpEvent>) returns (ok: bool)
      requires Valid()
      modifies http.js, http.requests, http.requests.list`next, emq, emq.watchers
      ensures Valid() && Now() == AfterHttpCleanup(old(Now()), id, late) && Onward()
      ensures ok == (id in old(http.js.live)) && id !in http.js.live
    {
      hide EmQueues.Sound, EmQueues.AfterWatch, EmQueues.AfterUnwatch, InStep, JsState.Valid, Recalls, Moves, Scripted;
      hide WsChans.WsChan.Reported, Httpxs.Httpx.Reported, Registry.Linked;
      HttpCleanupInStep(Now(), id, late, 0);
      ok := http.Cleanup(id, late);
      StillWatched();
    }

    method PushHttp(id: nat, y: Httpxs.HttpEvent)
      requires Valid()
      modifies http.js
      ensures Valid() && Now() == old(Now()).(http := Httpxs.AfterPush(old(Now()).http, id, y)) && Onward()
      ensures http.js.queue == old(http.js.queue) + if 0 < id < http.js.next then [Event(id, Httpxs.HttpFields(y))]
                                                    else []
    {
      hide EmQueues.Sound, EmQueues.AfterWatch, EmQueues.AfterUnwatch, InStep, JsState.Valid, Recalls, Moves, Scripted;
      hide WsChans.WsChan.Reported, Httpxs.Httpx.Reported, Registry.Linked;
      HttpPushInStep(Now(), id, y, 0);
      if 0 < id < http.js.next {
        http.Push(id, y);
      }
    }

    /** One turn of a drain's loop, up to the handler. */
    method TakeWs() returns (more: bool, called: bool)
      requires Valid()
      modifies ws`dispatched, ws.js
      ensures Valid() && Onward() && more == (old(Now()).ws.queue != [])
      ensures called == (more && old(Now()).ws.queue[0].id in old(Now()).ws.live)
      ensures Now() == if more then old(Now()).(ws := Delivery.Next(old(Now()).ws, Take)) else old(Now())
    {
      hide EmQueues.Sound, EmQueues.AfterWatch, EmQueues.AfterUnwatch, InStep, JsState.Valid, Recalls, Moves, Scripted;
      hide WsChans.WsChan.Reported, Httpxs.Httpx.Reported, Registry.Linked;
      ghost var w := Now();
      if w.ws.queue != [] {
        StepAdvances(w.ws, Take);
        AdvancesNot(w.http.c);
        SameLists(w, w.(ws := Delivery.Next(w.ws, Take)), 0);
      }
      more, called := ws.TakeOne();
    }

    method TakeHttp() returns (more: bool, called: bool)
      requires Valid()
      modifies http`dispatched, http.js, http.requests.list`data
      ensures Valid() && Onward() && more == (old(Now()).http.c.queue != [])
      ensures called == (more && Httpxs.Calling(old(Now()).http, old(Now()).http.c.queue[0]))
      ensures Now() == if more then old(Now()).(http := old(Now()).http.(c := Delivery.Next(old(Now()).http.c, Take)))
                       else old(Now())
    {
      hide EmQueues.Sound, EmQueues.AfterWatch, EmQueues.AfterUnwatch, InStep, JsState.Valid, Recalls, Moves, Scripted;
      hide WsChans.WsChan.Reported, Httpxs.Httpx.Reported, Registry.Linked;
      ghost var w := Now();
      if w.http.c.queue != [] {
        StepAdvances(w.http.c, Take);
        AdvancesNot(w.ws);
        SameLists(w, w.(http := w.http.(c := Delivery.Next(w.http.c, Take))), 0);
      }
      more, called := http.TakeOne();
    }

    lemma SoundNow()
      requires Valid()
      ensures Sound(Now().ws) && Sound(Now().http.c)
    {
      hide Sound, JsState.Valid;
      ws.js.Promises();
      http.js.Promises();
    }

    lemma OrderlyNow()
      requires Valid()
      ensures InStep(Now()) && emq.timers == Now().q.timers
    {}

    // -- Tcl -------------------------------------------------------------------------------

    method Act(action: Action, ghost depth: nat)
      requires Valid()
      modifies ws, ws.js, ws.sockets, ws.sockets.list, http, http.js, http.requests, http.requests.list
      modifies emq, emq.watchers
      ensures Valid() && Now() == AfterAction(old(Now()), action, depth) && Onward()
      decreases ActionSize(action), 5, 0
    {
      hide Valid, AfterWsOpen, AfterWsDestroy, AfterWsPush, AfterHttpStart, AfterHttpCleanup, AfterTick;
      hide Httpxs.AfterPush;
      match action
      case WsOpen(command) => var id := OpenWs(command);
      case WsDestroy(id) => var ok := DestroyWs(id);
      case WsPush(id, x) => PushWs(id, x);
      case HttpStart(asked, progress, early) => var id := StartHttp(asked, progress, early);
      case HttpCleanup(id, late) => var ok := CleanupHttp(id, late);
      case HttpPush(id, y) => PushHttp(id, y);
      case Events(plans) =>
        if emq.timers > 0 {
          Tick(plans, depth);
        }
    }

    /** What a handler does. */
    method Perform(script: Script, ghost depth: nat)
      requires Valid()
      modifies ws, ws.js, ws.sockets, ws.sockets.list, http, http.js, http.requests, http.requests.list
      modifies emq, emq.watchers
      ensures Valid() && Now() == AfterScript(old(Now()), script, depth) && Onward()
      ensures Follows(old(Now()), Now(), depth)
      decreases ScriptSize(script), 0, 0
    {
      hide Valid, AfterAction, Now, Follows;
      OrderlyNow();
      ScriptInStep(Now(), script, depth);
      if script.Do? {
        Act(script.action, depth);
        Perform(script.rest, depth);
      }
    }

    /** The start of a tick: its timer is spent, and it works on a copy of the list. */
    method BeginTick() returns (local: seq<EmQueues.Watcher>)
      requires Valid() && emq.timers > 0
      modifies emq`timers, emq`armed
      ensures Valid() && local == Now().q.list && Onward()
      ensures Now() == old(Now()).(q := old(Now()).q.(armed := false, timers := old(Now()).q.timers - 1))
    {
      hide InStep, JsState.Valid, WsChans.WsChan.Reported, Httpxs.Httpx.Reported, Registry.Linked;
      TimerSpent(Now());
      local := emq.Begin();
    }

    ghost method NoteCall(depth: nat, who: EmQueues.Watcher)
      requires Valid()
      modifies emq`calls
      ensures Valid() && Onward()
      ensures Now() == old(Now()).(q := old(Now()).q.(calls := old(Now()).q.calls + [EmQueues.Call(depth, who)]))
    {
      hide InStep, JsState.Valid, WsChans.WsChan.Reported, Httpxs.Httpx.Reported, Registry.Linked;
      CallNoted(Now(), EmQueues.Call(depth, who));
      emq.Called(depth, who);
    }

    method ArmAgain()
      requires Valid()
      modifies emq`timers, emq`armed
      ensures Valid() && Onward() && Now() == old(Now()).(q := EmQueues.Armed(old(Now()).q))
    {
      hide InStep, JsState.Valid, WsChans.WsChan.Reported, Httpxs.Httpx.Reported, Registry.Linked;
      TimerSet(Now());
      emq.Arm();
    }

    /** The loop of Tick, over the copy. */
    method DrainAll(local: seq<EmQueues.Watcher>, plans: Plans, ghost depth: nat)
      requires Valid()
      modifies ws, ws.js, ws.sockets, ws.sockets.list, http, http.js, http.requests, http.requests.list
      modifies emq, emq.watchers
      ensures Valid() && Now() == AfterDrains(old(Now()), local, plans, depth) && Onward()
      decreases PlansSize(plans), 3, 0
    {
      hide Valid, AfterDrain;
      var todo := plans;
      for i := 0 to |local|
        invariant Valid() && Onward() && PlansSize(todo) <= PlansSize(plans)
        invariant AfterDrains(Now(), local[i..], todo, depth) == AfterDrains(old(Now()), local, plans, depth)
      {
        assert local[i..][1..] == local[i + 1..];
        NoteCall(depth, local[i]);
        Drain(local[i], First(todo), depth + 1);
        todo := Others(todo);
      }
    }

    /** Tick, with the drains it calls. */
    method Tick(plans: Plans, ghost depth: nat)
      requires Valid() && emq.timers > 0
      modifies ws, ws.js, ws.sockets, ws.sockets.list, http, http.js, http.requests, http.requests.list
      modifies emq, emq.watchers
      ensures Valid() && Now() == AfterTick(old(Now()), plans, depth) && Onward()
      ensures Follows(old(Now()), Now(), depth) && Served(Now())
      ensures old(WsChans.DRAIN in emq.List()) ==> Delivered(old(ws.js.Now()), ws.js.Now())
      ensures old(Httpxs.DRAIN in emq.List()) ==> Delivered(old(http.js.Now()), http.js.Now())
      decreases PlansSize(plans), 4, 0
    {
      hide Valid, AfterDrains, InStep, Served, EmQueues.AtDepth, Follows, Delivered;
      OrderlyNow();
      SoundNow();
      TickInStep(Now(), plans, depth);
      TickDelivers(Now(), plans, depth);
      var local := BeginTick();
      DrainAll(local, plans, depth);
      ArmAgain();
    }

    method Drain(who: EmQueues.Watcher, plan: Plan, ghost depth: nat)
      requires Valid()
      modifies ws, ws.js, ws.sockets, ws.sockets.list, http, http.js, http.requests, http.requests.list
      modifies emq, emq.watchers
      ensures Valid() && Now() == AfterDrain(old(Now()), who, plan, depth) && Onward()
      decreases PlanSize(plan), 2, 0
    {
      if who == WsChans.DRAIN {
        DrainWs(plan, depth);
      } else if who == Httpxs.DRAIN {
        DrainHttp(plan, depth);
      }
    }

    /** Drain of emscripten/wschan.c: it returns only when no event is left, whatever the handlers do. */
    method DrainWs(plan: Plan, ghost depth: nat)
      requires Valid()
      modifies ws, ws.js, ws.sockets, ws.sockets.list, http, http.js, http.requests, http.requests.list
      modifies emq, emq.watchers
      ensures Valid() && Now() == AfterWsDrain(old(Now()), plan, depth) && ws.js.queue == [] && Onward()
      ensures forall id :: id in ws.js.live ==> Of(ws.js.served, id) == Of(ws.js.queued, id)
      decreases PlanSize(plan), 1, 0
    {
      hide Valid, AfterScript, Httpxs.Calling, Follows, Served, Of;
      var todo := plan;
      while true
        invariant Valid() && Onward() && PlanSize(todo) <= PlanSize(plan)
        invariant AfterWsDrain(Now(), todo, depth) == AfterWsDrain(old(Now()), plan, depth)
        decreases PlanSize(todo), |ws.js.queue|
      {
        var more, called := TakeWs();
        if !more {
          break;
        }
        if called && todo.Then? {
          Perform(todo.script, depth);
          todo := todo.more;
        }
      }
      AllServed(ws.js);
    }

    /** What every live id was queued, it has been served. */
    lemma AllServed(js: JsState)
      requires (js == ws.js || js == http.js) && Valid() && js.queue == []
      ensures forall id :: id in js.live ==> Of(js.served, id) == Of(js.queued, id)
    {
      hide InStep, JsState.Valid, WsChans.WsChan.Reported, Httpxs.Httpx.Reported, Of;
      forall id | id in js.live
        ensures Of(js.served, id) == Of(js.queued, id)
      {
        js.Drained(id);
      }
    }

    /** Drain of emscripten/httpx.c, likewise. */
    method DrainHttp(plan: Plan, ghost depth: nat)
      requires Valid()
      modifies ws, ws.js, ws.sockets, ws.sockets.list, http, http.js, http.requests, http.requests.list
      modifies emq, emq.watchers
      ensures Valid() && Now() == AfterHttpDrain(old(Now()), plan, depth) && http.js.queue == [] && Onward()
      ensures forall id :: id in http.js.live ==> Of(http.js.served, id) == Of(http.js.queued, id)
      decreases PlanSize(plan), 1, 0
    {
      hide Valid, AfterScript, Httpxs.Calling, Follows, Served, Of;
      var todo := plan;
      while true
        invariant Valid() && Onward() && PlanSize(todo) <= PlanSize(plan)
        invariant AfterHttpDrain(Now(), todo, depth) == AfterHttpDrain(old(Now()), plan, depth)
        decreases PlanSize(todo), |http.js.queue|
      {
        var more, called := TakeHttp();
        if !more {
          break;
        }
        if called && todo.Then? {
          Perform(todo.script, depth);
          todo := todo.more;
        }
      }
      AllServed(http.js);
    }
  }
}
