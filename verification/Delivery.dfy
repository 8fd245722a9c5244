/**
 * What a client of the queue promises: JavaScript appends events for the ids it
 * has handed out, late ones included, and Tcl serves them to the ids that are
 * still live. emscripten/wschan.c and emscripten/httpx.c both keep to this.
 */
module Delivery {
  /** [id, kind, ...fields] */
  datatype Event = Event(id: nat, fields: seq<string>)

  /** `queued` and `served` record every event ever appended and ever served. */
  datatype Chan = Chan(next: nat, live: set<nat>, queue: seq<Event>, queued: seq<Event>, served: seq<Event>)

  datatype Step =
    | Open
    /** JavaScript appends an event, for any id it has ever handed out. */
    | Push(e: Event)
    | Destroy(id: nat)
    /** One turn of the drain's loop. */
    | Take

  const NEW := Chan(1, {}, [], [], [])

  predicate Enabled(c: Chan, s: Step) {
    match s
    case Open => true
    case Push(e) => 0 < e.id < c.next
    case Destroy(id) => id in c.live
    case Take => c.queue != []
  }

  /** queue.filter((ev) => ev[0] !== id) */
  function Without(queue: seq<Event>, id: nat): seq<Event> {
    if queue == [] then []
    else (if queue[0].id == id then [] else [queue[0]]) + Without(queue[1..], id)
  }

  function Next(c: Chan, s: Step): Chan
    requires Enabled(c, s)
  {
    match s
    case Open => c.(next := c.next + 1, live := c.live + {c.next})
    case Push(e) => c.(queue := c.queue + [e], queued := c.queued + [e])
    case Destroy(id) => c.(live := c.live - {id}, queue := Without(c.queue, id))
    case Take =>
      var e := c.queue[0];
      c.(queue := c.queue[1..], served := if e.id in c.live then c.served + [e] else c.served)
  }

  predicate Possible(c: Chan, run: seq<Step>)
    decreases |run|
  {
    run == [] || (Enabled(c, run[0]) && Possible(Next(c, run[0]), run[1..]))
  }

  function After(c: Chan, run: seq<Step>): Chan
    requires Possible(c, run)
    decreases |run|
  {
    if run == [] then c else After(Next(c, run[0]), run[1..])
  }

  lemma {:induction false} OneMore(c: Chan, run: seq<Step>, s: Step)
    requires Possible(c, run) && Enabled(After(c, run), s)
    ensures Possible(c, run + [s]) && After(c, run + [s]) == Next(After(c, run), s)
    decreases |run|
  {
    if run == [] {
      assert run + [s] == [s] && [s][1..] == [];
    } else {
      OneMore(Next(c, run[0]), run[1..], s);
      assert (run + [s])[1..] == run[1..] + [s];
    }
  }

  /** The events for one id, in order. */
  function Of(es: seq<Event>, id: nat): seq<Event> {
    if es == [] then [] else (if es[0].id == id then [es[0]] else []) + Of(es[1..], id)
  }

  lemma {:induction false} OfBoth(a: seq<Event>, b: seq<Event>, id: nat)
    ensures Of(a + b, id) == Of(a, id) + Of(b, id)
    decreases |a|
  {
    if a == [] {
      assert a + b == b;
    } else {
      assert (a + b)[1..] == a[1..] + b;
      OfBoth(a[1..], b, id);
      var first := if a[0].id == id then [a[0]] else [];
      assert (first + Of(a[1..], id)) + Of(b, id) == first + (Of(a[1..], id) + Of(b, id));
    }
  }

  lemma {:induction false} OfWithout(q: seq<Event>, gone: nat, id: nat)
    ensures Of(Without(q, gone), id) == if id == gone then [] else Of(q, id)
    decreases |q|
  {
    if q != [] {
      OfWithout(q[1..], gone, id);
      OfBoth(if q[0].id == gone then [] else [q[0]], Without(q[1..], gone), id);
      assert q[0].id != gone ==> Of([q[0]], id) == if q[0].id == id then [q[0]] else [];
    }
  }

  lemma {:induction false} OfNone(es: seq<Event>, id: nat)
    requires forall i :: 0 <= i < |es| ==> es[i].id != id
    ensures Of(es, id) == []
    decreases |es|
  {
    if es != [] {
      OfNone(es[1..], id);
    }
  }

  predicate Before(es: seq<Event>, next: nat) {
    forall i :: 0 <= i < |es| ==> es[i].id < next
  }

  /** Every live id has been served what was queued for it, in order, up to what still waits. */
  ghost predicate Sound(c: Chan) {
    && c.next > 0 && (forall id :: id in c.live ==> 0 < id < c.next)
    && Before(c.queue, c.next) && Before(c.queued, c.next) && Before(c.served, c.next)
    && forall id :: id in c.live ==> Of(c.served, id) + Of(c.queue, id) == Of(c.queued, id)
  }

  lemma {:induction false} WithoutFrom(q: seq<Event>, id: nat)
    ensures forall e :: e in Without(q, id) ==> e in q
    decreases |q|
  {
    if q != [] {
      WithoutFrom(q[1..], id);
    }
  }

  lemma {:induction false} WithoutBefore(q: seq<Event>, id: nat, next: nat)
    requires Before(q, next)
    ensures Before(Without(q, id), next)
    decreases |q|
  {
    if q != [] {
      WithoutBefore(q[1..], id, next);
    }
  }

  lemma OpenKeepsSound(c: Chan)
    requires Sound(c)
    ensures Sound(Next(c, Open))
  {
    hide Of;
    OfNone(c.served, c.next);
    OfNone(c.queue, c.next);
    OfNone(c.queued, c.next);
  }

  lemma PushKeepsSound(c: Chan, e: Event)
    requires Sound(c) && 0 < e.id < c.next
    ensures Sound(Next(c, Push(e)))
  {
    hide Of;
    var d := Next(c, Push(e));
    forall id | id in d.live
      ensures Of(d.served, id) + Of(d.queue, id) == Of(d.queued, id)
    {
      OfBoth(c.queue, [e], id);
      OfBoth(c.queued, [e], id);
      assert (Of(c.served, id) + Of(c.queue, id)) + Of([e], id) == Of(c.served, id) + (Of(c.queue, id) + Of([e], id));
    }
  }

  lemma TakeKeepsSound(c: Chan)
    requires Sound(c) && c.queue != []
    ensures Sound(Next(c, Take))
  {
    var d, e := Next(c, Take), c.queue[0];
    forall id | id in d.live
      ensures Of(d.served, id) + Of(d.queue, id) == Of(d.queued, id)
    {
      OfBoth(c.served, [e], id);
      assert Of([e], id) == if e.id == id then [e] else [];
      assert Of(c.queue, id) == Of([e], id) + Of(d.queue, id);
    }
  }

  lemma StepKeepsSound(c: Chan, s: Step)
    requires Sound(c) && Enabled(c, s)
    ensures Sound(Next(c, s))
  {
    hide Of;
    var d := Next(c, s);
    match s
    case Open => OpenKeepsSound(c);
    case Push(e) => PushKeepsSound(c, e);
    case Destroy(gone) =>
      WithoutBefore(c.queue, gone, c.next);
      forall id | id in d.live
        ensures Of(d.served, id) + Of(d.queue, id) == Of(d.queued, id)
      {
        OfWithout(c.queue, gone, id);
      }
    case Take => TakeKeepsSound(c);
  }

  /**
   * Over every run: what a live id has been served is a prefix of what was
   * queued for it, in order, and an id is handed out only once.
   */
  lemma {:induction false} RunKeepsSound(c: Chan, run: seq<Step>)
    requires Sound(c) && Possible(c, run)
    ensures Sound(After(c, run)) && After(c, run).next >= c.next
    ensures forall id :: id in After(c, run).live && id < c.next ==> id in c.live
    decreases |run|
  {
    if run != [] {
      StepKeepsSound(c, run[0]);
      RunKeepsSound(Next(c, run[0]), run[1..]);
    }
  }

  lemma StepKeepsSilence(c: Chan, s: Step, id: nat)
    requires Sound(c) && Enabled(c, s) && id < c.next && id !in c.live
    ensures id !in Next(c, s).live && id < Next(c, s).next && Of(Next(c, s).served, id) == Of(c.served, id)
  {
    if s.Take? {
      OfBoth(c.served, [c.queue[0]], id);
    }
  }

  /** An id that is gone is never served again, whatever is pushed for it afterwards. */
  lemma {:induction false} SilenceAfter(c: Chan, run: seq<Step>, id: nat)
    requires Sound(c) && Possible(c, run) && id < c.next && id !in c.live
    ensures id !in After(c, run).live && Of(After(c, run).served, id) == Of(c.served, id)
    decreases |run|
  {
    if run != [] {
      StepKeepsSound(c, run[0]);
      StepKeepsSilence(c, run[0], id);
      SilenceAfter(Next(c, run[0]), run[1..], id);
    }
  }

  /** ... stated for two moments of one history. */
  lemma SilenceSince(before: seq<Step>, now: seq<Step>, id: nat)
    requires before <= now && Possible(NEW, before) && Possible(NEW, now)
    requires var c := After(NEW, before); id < c.next && id !in c.live
    ensures id !in After(NEW, now).live && Of(After(NEW, now).served, id) == Of(After(NEW, before).served, id)
  {
    assert now == before + now[|before|..];
    RunKeepsSound(NEW, before);
    SplitRun(NEW, before, now[|before|..]);
    SilenceAfter(After(NEW, before), now[|before|..], id);
  }

  lemma {:induction false} SplitRun(c: Chan, a: seq<Step>, b: seq<Step>)
    requires Possible(c, a + b)
    ensures Possible(c, a) && Possible(After(c, a), b) && After(c, a + b) == After(After(c, a), b)
    decreases |a|
  {
    if a == [] {
      assert a + b == b;
    } else {
      assert (a + b)[0] == a[0] && (a + b)[1..] == a[1..] + b;
      SplitRun(Next(c, a[0]), a[1..], b);
    }
  }

  /** Destroying an id fixes what it was served: a prefix of what had been queued for it by then. */
  lemma DestroyedIsServedNoMore(c: Chan, id: nat, run: seq<Step>)
    requires Sound(c) && id in c.live && Possible(c, [Destroy(id)] + run)
    ensures var end := After(c, [Destroy(id)] + run);
            id !in end.live && Of(end.served, id) == Of(c.served, id) && Of(c.served, id) <= Of(c.queued, id)
  {
    assert ([Destroy(id)] + run)[1..] == run;
    StepKeepsSound(c, Destroy(id));
    SilenceAfter(Next(c, Destroy(id)), run, id);
  }

  /** Once the queue is empty a live id has been served everything that was queued for it. */
  lemma DrainedIsComplete(run: seq<Step>, id: nat)
    requires Possible(NEW, run) && After(NEW, run).queue == [] && id in After(NEW, run).live
    ensures Of(After(NEW, run).served, id) == Of(After(NEW, run).queued, id)
  {
    RunKeepsSound(NEW, run);
  }

  // -- what a run does, from its steps alone -------------------------------------------

  /** The events of the Push steps, in order. */
  function Pushed(run: seq<Step>): seq<Event>
    decreases |run|
  {
    if run == [] then [] else (if run[0].Push? then [run[0].e] else []) + Pushed(run[1..])
  }

  function Opened(run: seq<Step>): nat
    decreases |run|
  {
    if run == [] then 0 else (if run[0].Open? then 1 else 0) + Opened(run[1..])
  }

  /**
   * What is queued is what was pushed, in order; as many ids were handed out as
   * were opened; and an id is live if it was before, or is new, and has not been
   * destroyed.
   */
  lemma {:induction false} RunTells(c: Chan, run: seq<Step>)
    requires Sound(c) && Possible(c, run)
    ensures var d := After(c, run);
            && d.queued == c.queued + Pushed(run) && d.next == c.next + Opened(run)
            && forall id: nat :: id in d.live <==> (id in c.live || c.next <= id < d.next) && Destroy(id) !in run
    decreases |run|
  {
    if run != [] {
      StepKeepsSound(c, run[0]);
      RunTells(Next(c, run[0]), run[1..]);
      assert run == [run[0]] + run[1..];
      assert forall id: nat :: Destroy(id) in run <==> Destroy(id) == run[0] || Destroy(id) in run[1..];
      assert run[0].Destroy? ==> run[0].id < c.next;
    }
  }

  // -- from one moment to a later one ------------------------------------------------------

  /** No id is handed out twice, and what waits now waited then or has been queued since. */
  ghost predicate Advances(c: Chan, d: Chan) {
    && (Sound(c) ==> Sound(d)) && c.next <= d.next
    && (forall id :: id in d.live && id < c.next ==> id in c.live)
    && c.queued <= d.queued && c.served <= d.served
    && multiset(d.queue) <= multiset(c.queue) + multiset(d.queued[|c.queued|..])
  }

  lemma AdvancesNot(c: Chan)
    ensures Advances(c, c)
  {}

  lemma AdvancesOn(a: Chan, b: Chan, c: Chan)
    requires Advances(a, b) && Advances(b, c)
    ensures Advances(a, c)
  {
    hide Sound;
    assert c.queued[|a.queued|..] == b.queued[|a.queued|..] + c.queued[|b.queued|..];
  }

  lemma {:induction false} WithoutIsLess(q: seq<Event>, id: nat)
    ensures multiset(Without(q, id)) <= multiset(q)
    decreases |q|
  {
    if q != [] {
      WithoutIsLess(q[1..], id);
      assert q == [q[0]] + q[1..];
    }
  }

  lemma StepAdvances(c: Chan, s: Step)
    requires Enabled(c, s)
    ensures Advances(c, Next(c, s))
  {
    if Sound(c) {
      StepKeepsSound(c, s);
    }
    hide Sound, Without;
    var d := Next(c, s);
    match s
    case Open =>
    case Push(e) => assert d.queued[|c.queued|..] == [e];
    case Destroy(id) => WithoutIsLess(c.queue, id);
    case Take => assert c.queue == [c.queue[0]] + d.queue;
  }

  /**
   * All that waited then has been dealt with since: nothing of it waits any more,
   * and an id that is still live has been served all of it, in order and next
   * after what it had been served.
   */
  ghost predicate Delivered(c: Chan, d: Chan) {
    && c.queued <= d.queued && multiset(d.queue) <= multiset(d.queued[|c.queued|..])
    && forall id :: id in d.live && id < c.next ==> Of(c.served, id) + Of(c.queue, id) <= Of(d.served, id)
  }

  /** A queue that has been emptied has been delivered. */
  lemma EmptiedIsDelivered(c: Chan, d: Chan)
    requires Sound(c) && Advances(c, d) && d.queue == []
    ensures Delivered(c, d)
  {
    forall id | id in d.live && id < c.next
      ensures Of(c.served, id) + Of(c.queue, id) <= Of(d.served, id)
    {
      assert d.queued == c.queued + d.queued[|c.queued|..];
      OfBoth(c.queued, d.queued[|c.queued|..], id);
      assert Of(d.served, id) + Of(d.queue, id) == Of(d.queued, id);
      assert Of(d.served, id) == Of(d.queued, id);
    }
  }

  /** What is delivered stays so. */
  lemma StaysDelivered(c: Chan, b: Chan, d: Chan)
    requires c.next <= b.next && Delivered(c, b) && Advances(b, d)
    ensures Delivered(c, d)
  {
    hide Sound, Of;
    assert d.queued[|c.queued|..] == b.queued[|c.queued|..] + d.queued[|b.queued|..];
    forall id | id in d.live && id < c.next
      ensures Of(c.served, id) + Of(c.queue, id) <= Of(d.served, id)
    {
      assert d.served == b.served + d.served[|b.served|..];
      OfBoth(b.served, d.served[|b.served|..], id);
    }
  }
}
