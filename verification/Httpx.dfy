/** The HTTP client of emscripten/httpx.c. */
module Httpxs {
  import opened Options
  import opened Fields
  import opened Delivery
  import opened Events
  import opened Registries
  import EmQueues

  // -- what a request reports ---------------------------------------------------------

  datatype Status = StOk | StError | StTimeout | StReset

  function StatusText(s: Status): (t: string)
    ensures SEP !in t && NulFree(t)
  {
    match s
    case StOk => "ok"
    case StError => "error"
    case StTimeout => "timeout"
    case StReset => "reset"
  }

  /** What step and settle push. */
  datatype HttpEvent =
    | Progress(total: nat, loaded: nat)
    | Settled(status: Status, code: nat, error: string)

  function HttpFields(x: HttpEvent): seq<string> {
    match x
    case Progress(total, loaded) => ["progress", Decimal(total), Decimal(loaded)]
    case Settled(status, code, error) => ["done", StatusText(status), Decimal(code), error]
  }

  /** What Drain makes of an event. */
  datatype News =
    | NoNews
    | Moved(words: seq<string>)
    | Done(word: string, status: string, code: nat, error: string)

  /** The unpacking in Drain: the id, or -1 if there is none, and the news. */
  function HttpDecode(s: string): (int, News) {
    var f := Split(s, 5);
    (if |f| >= 2 then Leading(f[0], 0) else -1,
     if |f| >= 4 && f[1] == "progress" then Moved([f[0], f[2], f[3]])
     else if |f| >= 5 && f[1] == "done" then Done(f[0], f[2], Leading(f[3], 0), f[4])
     else NoNews)
  }

  /** What the event says, in the words Tcl gets. */
  function Told(id: nat, x: HttpEvent): News {
    match x
    case Progress(total, loaded) => Moved([Decimal(id), Decimal(total), Decimal(loaded)])
    case Settled(status, code, error) => Done(Decimal(id), StatusText(status), code, Cut(error))
  }

  /** What the browser reports is what Tcl is told; an error text may hold separators, and only a NUL cuts it. */
  lemma HttpRoundTrip(id: nat, x: HttpEvent)
    ensures HttpDecode(Polled(Event(id, HttpFields(x)))) == (id, Told(id, x))
    ensures x.Settled? ==> (Cut(x.error) == x.error <==> NulFree(x.error))
  {
    hide Join, Split, Cut, Leading, Decimal, Polled, StatusText;
    var e := Event(id, HttpFields(x));
    NumberRoundTrip(id);
    match x
    case Progress(total, loaded) =>
      NumberRoundTrip(total);
      NumberRoundTrip(loaded);
      CutsOnlyAtNul(Decimal(loaded));
      var row := [Decimal(id), "progress", Decimal(total), Decimal(loaded)];
      PolledRow(e);
      assert Row(e)[..3] + [Decimal(loaded)] == row;
      JoinSplits(row, 5);
    case Settled(status, code, error) =>
      NumberRoundTrip(code);
      CutsOnlyAtNul(error);
      var row := [Decimal(id), "done", StatusText(status), Decimal(code), Cut(error)];
      PolledRow(e);
      assert Row(e)[..4] + [Cut(error)] == row;
      JoinSplits(row, 5);
  }

  // -- the requests Tcl knows about ------------------------------------------------------

  const DRAIN := EmQueues.Watcher(2, 0)

  /** HttpxReq: the two callbacks it was made with, and how it settled. */
  datatype Request =
    Request(command: Option<string>, progress: Option<string>, status: string, code: nat, error: string)

  function Fresh(command: Option<string>, progress: Option<string>): Request {
    Request(command, progress, "", 0, "")
  }

  function Settle(r: Request, n: News): Request {
    if n.Done? then r.(status := n.status, code := n.code, error := n.error) else r
  }

  /** The request after the events it has been served: the last one to settle it counts. */
  function AfterServed(r: Request, es: seq<Event>): Request {
    if es == [] then r else Settle(AfterServed(r, es[..|es| - 1]), HttpDecode(Polled(es[|es| - 1])).1)
  }

  /** EmQueue_Dispatch */
  datatype Dispatch = Dispatch(prefix: string, words: seq<string>)

  /** The call an event leads to, if the request was made with a callback for it. */
  function CallFor(r: Request, n: News): seq<Dispatch> {
    if n.Moved? && r.progress.Some? then [Dispatch(r.progress.value, n.words)]
    else if n.Done? && r.command.Some? then [Dispatch(r.command.value, [n.word])]
    else []
  }

  function Calls(given: map<nat, Request>, es: seq<Event>): seq<Dispatch> {
    if es == [] then []
    else
      var e := es[|es| - 1];
      Calls(given, es[..|es| - 1])
      + if e.id in given then CallFor(given[e.id], HttpDecode(Polled(e)).1) else []
  }

  /** A request made later changes nothing about the calls so far. */
  lemma {:induction false} CallsKept(given: map<nat, Request>, es: seq<Event>, id: nat, r: Request)
    requires Before(es, id)
    ensures Calls(given[id := r], es) == Calls(given, es)
  {
    if es != [] {
      CallsKept(given, es[..|es| - 1], id, r);
    }
  }

  lemma {:induction false} OfLast(es: seq<Event>, e: Event, id: nat)
    ensures Of(es + [e], id) == Of(es, id) + if e.id == id then [e] else []
  {
    OfBoth(es, [e], id);
  }

  lemma {:induction false} CallbacksStay(r: Request, es: seq<Event>)
    ensures AfterServed(r, es).command == r.command && AfterServed(r, es).progress == r.progress
  {
    if es != [] {
      CallbacksStay(r, es[..|es| - 1]);
    }
  }

  lemma ServedOneMore(r: Request, es: seq<Event>, e: Event)
    ensures AfterServed(r, es + [e]) == Settle(AfterServed(r, es), HttpDecode(Polled(e)).1)
  {
    assert (es + [e])[..|es|] == es;
  }

  lemma CallsOneMore(given: map<nat, Request>, es: seq<Event>, e: Event)
    requires e.id in given
    ensures Calls(given, es + [e]) == Calls(given, es) + CallFor(given[e.id], HttpDecode(Polled(e)).1)
  {
    assert (es + [e])[..|es|] == es;
  }

  ghost predicate IsHttp(e: Event) { exists x :: e.fields == HttpFields(x) }

  /** The request was made with a callback for events of this kind. */
  predicate Asks(r: Request, e: Event) {
    e.fields != [] && ((e.fields[0] == "progress" && r.progress.Some?) || (e.fields[0] == "done" && r.command.Some?))
  }

  /** How many of the events lead to a call. */
  function CallsAsked(given: map<nat, Request>, es: seq<Event>): nat {
    if es == [] then 0
    else
      var e := es[|es| - 1];
      CallsAsked(given, es[..|es| - 1]) + if e.id in given && Asks(given[e.id], e) then 1 else 0
  }

  /** One event, one call to the callback of its kind with the event's numbers; or none if there is no callback. */
  lemma CallIs(r: Request, id: nat, x: HttpEvent)
    ensures var calls := CallFor(r, HttpDecode(Polled(Event(id, HttpFields(x)))).1);
            match x
            case Progress(total, loaded) =>
              calls == if r.progress == None then []
                       else [Dispatch(r.progress.value, [Decimal(id), Decimal(total), Decimal(loaded)])]
            case Settled(_, _, _) =>
              calls == if r.command == None then [] else [Dispatch(r.command.value, [Decimal(id)])]
    ensures Asks(r, Event(id, HttpFields(x))) <==> if x.Progress? then r.progress.Some? else r.command.Some?
  {
    hide HttpDecode, Polled, Decimal, StatusText, Cut;
    HttpRoundTrip(id, x);
  }

  /** Every event so far is one that JavaScript pushes, for a request that was made. */
  ghost predicate AllKnown(given: map<nat, Request>, es: seq<Event>) {
    forall i :: 0 <= i < |es| ==> es[i].id in given && IsHttp(es[i])
  }

  lemma KnownOneMore(given: map<nat, Request>, es: seq<Event>, e: Event)
    requires AllKnown(given, es) && e.id in given && IsHttp(e)
    ensures AllKnown(given, es + [e])
  {
    hide IsHttp;
  }

  lemma AsksIsCall(r: Request, e: Event)
    requires IsHttp(e)
    ensures Asks(r, e) <==> CallFor(r, HttpDecode(Polled(e)).1) != []
  {
    hide HttpFields, HttpDecode, Polled, CallFor, Asks;
    var x :| e.fields == HttpFields(x);
    assert e == Event(e.id, HttpFields(x));
    OneCallAtMost(r, e.id, x);
  }

  /** The calls of a run of events, counted, with each event's call in its place. */
  lemma {:induction false} CallsInOrder(given: map<nat, Request>, es: seq<Event>, i: nat)
    requires AllKnown(given, es) && i < |es|
    ensures |Calls(given, es)| == CallsAsked(given, es) && CallsAsked(given, es[..i]) <= CallsAsked(given, es)
    ensures var n := CallsAsked(given, es[..i]);
            var call := CallFor(given[es[i].id], HttpDecode(Polled(es[i])).1);
            && CallsAsked(given, es[..i + 1]) == n + |call| && n + |call| <= |Calls(given, es)|
            && Calls(given, es)[n..n + |call|] == call
    decreases |es|
  {
    hide HttpDecode, Polled, HttpFields, CallFor, Asks;
    var last, rest := es[|es| - 1], es[..|es| - 1];
    var x :| last.fields == HttpFields(x);
    assert last == Event(last.id, HttpFields(x));
    OneCallAtMost(given[last.id], last.id, x);
    CallsCounted(given, rest);
    if i < |es| - 1 {
      assert rest[..i] == es[..i] && rest[..i + 1] == es[..i + 1];
      CallsInOrder(given, rest, i);
    } else {
      assert es[..i] == rest && es[..i + 1] == es;
    }
  }

  lemma OneCallAtMost(r: Request, id: nat, x: HttpEvent)
    ensures |CallFor(r, HttpDecode(Polled(Event(id, HttpFields(x)))).1)| ==
            if Asks(r, Event(id, HttpFields(x))) then 1 else 0
  {
    CallIs(r, id, x);
  }

  lemma {:induction false} CallsCounted(given: map<nat, Request>, es: seq<Event>)
    requires AllKnown(given, es)
    ensures |Calls(given, es)| == CallsAsked(given, es)
    decreases |es|
  {
    hide HttpDecode, Polled, HttpFields, CallFor, Asks;
    if es != [] {
      var last := es[|es| - 1];
      var x :| last.fields == HttpFields(x);
      assert last == Event(last.id, HttpFields(x));
      OneCallAtMost(given[last.id], last.id, x);
      CallsCounted(given, es[..|es| - 1]);
    }
  }

  /** Event i is the last of the id's to settle it. */
  ghost predicate LastSettled(es: seq<Event>, id: nat, i: nat, x: HttpEvent) {
    && i < |es| && es[i] == Event(id, HttpFields(x)) && x.Settled?
    && forall j :: i < j < |es| && es[j].id == id && es[j].fields != [] ==> es[j].fields[0] != "done"
  }

  /** How a request stands: as the last event to settle it says, or as it was made. */
  ghost predicate Stands(now: Request, made: Request, es: seq<Event>, id: nat) {
    && (forall i: nat, x :: LastSettled(es, id, i, x) ==>
          && now.command == made.command && now.progress == made.progress
          && now.code == x.code && now.error == Cut(x.error)
          && match x.status
             case StOk => now.status == "ok"
             case StError => now.status == "error"
             case StTimeout => now.status == "timeout"
             case StReset => now.status == "reset")
    && ((forall i :: 0 <= i < |es| && es[i].id == id && es[i].fields != [] ==> es[i].fields[0] != "done") ==>
          now == made)
  }

  lemma {:induction false} StandsAsServed(made: Request, es: seq<Event>, id: nat)
    requires forall i :: 0 <= i < |es| ==> IsHttp(es[i])
    ensures Stands(AfterServed(made, Of(es, id)), made, es, id)
    decreases |es|
  {
    hide HttpDecode, Polled, Cut, Decimal, Stands, HttpFields, StatusText, Told, Of, AfterServed;
    if es == [] {
      StandsUnserved(made, id);
    } else {
      var last, rest := es[|es| - 1], es[..|es| - 1];
      StandsAsServed(made, rest, id);
      CallbacksStay(made, Of(rest, id));
      assert es == rest + [last];
      OfLast(rest, last, id);
      var x :| last.fields == HttpFields(x);
      assert last == Event(last.id, HttpFields(x));
      ServedOneMore(made, Of(rest, id), last);
      HttpRoundTrip(last.id, x);
      assert Of(rest, id) + [] == Of(rest, id);
      assert last.id != id ==> Of(es, id) == Of(rest, id);
      StandsOneMore(AfterServed(made, Of(rest, id)), AfterServed(made, Of(es, id)), made, rest, id, last.id, x);
    }
  }

  lemma StandsUnserved(made: Request, id: nat)
    ensures Of([], id) == [] && AfterServed(made, []) == made && Stands(made, made, [], id)
  {}

  /** An event's fields say which event it is. */
  lemma FieldsTell(x: HttpEvent, y: HttpEvent)
    ensures HttpFields(x) != [] && (HttpFields(x)[0] == "done" <==> x.Settled?)
    ensures HttpFields(x) == HttpFields(y) ==> x == y
  {
    hide Decimal;
    if HttpFields(x) == HttpFields(y) {
      match (x, y)
      case (Progress(t, l), Progress(u, m)) =>
        NumberRoundTrip(t);
        NumberRoundTrip(u);
        NumberRoundTrip(l);
        NumberRoundTrip(m);
        assert HttpFields(x)[1] == HttpFields(y)[1] && HttpFields(x)[2] == HttpFields(y)[2];
      case (Settled(s, c, e), Settled(t, d, f)) =>
        NumberRoundTrip(c);
        NumberRoundTrip(d);
        assert HttpFields(x)[1] == HttpFields(y)[1] && HttpFields(x)[2] == HttpFields(y)[2];
        assert HttpFields(x)[3] == HttpFields(y)[3];
      case _ =>
    }
  }

  lemma StandsOneMore(was: Request, now: Request, made: Request, es: seq<Event>, id: nat, of: nat, x: HttpEvent)
    requires Stands(was, made, es, id) && was.command == made.command && was.progress == made.progress
    requires now == if of == id then Settle(was, Told(id, x)) else was
    ensures Stands(now, made, es + [Event(of, HttpFields(x))], id)
  {
    hide HttpFields, Cut, Decimal;
    var more := es + [Event(of, HttpFields(x))];
    forall i: nat, y | LastSettled(more, id, i, y)
      ensures i < |es| ==> LastSettled(es, id, i, y) && (of == id ==> x.Progress?)
      ensures i >= |es| ==> of == id && y == x
    {
      FieldsTell(x, y);
      FieldsTell(y, x);
      assert more[|es|] == Event(of, HttpFields(x));
      assert forall j :: 0 <= j < |es| ==> more[j] == es[j];
    }
    FieldsTell(x, x);
    assert forall j :: 0 <= j < |es| ==> more[j] == es[j];
    assert more[|es|] == Event(of, HttpFields(x));
  }

  /** The events and live ids, the requests the browser still has, and each request as it was made. */
  datatype World = World(c: Chan, reqs: set<nat>, given: map<nat, Request>)

  /** step or settle, for an id that has been handed out. */
  function AfterPush(w: World, id: nat, x: HttpEvent): World {
    if 0 < id < w.c.next
    then w.(c := Delivery.Next(w.c, Push(Event(id, HttpFields(x)))),
            reqs := if x.Settled? then w.reqs - {id} else w.reqs)
    else w
  }

  function AfterPushes(w: World, id: nat, xs: seq<HttpEvent>): World {
    if xs == [] then w else AfterPush(AfterPushes(w, id, xs[..|xs| - 1]), id, xs[|xs| - 1])
  }

  /** The events as they are queued. */
  function Reports(id: nat, xs: seq<HttpEvent>): (es: seq<Event>)
    ensures |es| == |xs| && forall i :: 0 <= i < |es| ==> es[i] == Event(id, HttpFields(xs[i]))
  {
    seq(|xs|, i requires 0 <= i < |xs| => Event(id, HttpFields(xs[i])))
  }

  lemma PushesNone(w: World, id: nat)
    ensures AfterPushes(w, id, []) == w && Reports(id, []) == []
  {}

  lemma PushesOneMore(w: World, id: nat, xs: seq<HttpEvent>, i: nat)
    requires i < |xs|
    ensures AfterPushes(w, id, xs[..i + 1]) == AfterPush(AfterPushes(w, id, xs[..i]), id, xs[i])
    ensures Reports(id, xs[..i + 1]) == Reports(id, xs[..i]) + [Event(id, HttpFields(xs[i]))]
  {
    hide AfterPush;
    assert xs[..i + 1][..i] == xs[..i];
  }

  function AfterStart(w: World, command: Option<string>, progress: Option<string>, early: seq<HttpEvent>): World {
    AfterPushes(World(Delivery.Next(w.c, Open), w.reqs + {w.c.next}, w.given[w.c.next := Fresh(command, progress)]),
                w.c.next, early)
  }

  /** Only a request the browser still has can be aborted. */
  function AfterClean(w: World, id: nat, late: seq<HttpEvent>): World {
    if id !in w.c.live then w
    else
      var v := if id in w.reqs then AfterPushes(w, id, late) else w;
      if id in v.c.live then v.(c := Delivery.Next(v.c, Destroy(id)), reqs := v.reqs - {id}) else v
  }

  /** The event leads to a callback. */
  predicate Calling(w: World, e: Event) {
    e.id in w.c.live && e.id in w.given && CallFor(w.given[e.id], HttpDecode(Polled(e)).1) != []
  }

  class Httpx {
    const js: JsState
    const requests: Registry<Request>
    const emq: EmQueues.EmQueue

    /** The callbacks called, and each request as it was made. */
    ghost var dispatched: seq<Dispatch>
    ghost var given: map<nat, Request>

    constructor (emq: EmQueues.EmQueue)
      requires emq.Valid() && emq.HasRoomFor(DRAIN) && DRAIN !in emq.List()
      ensures this.emq == emq && fresh(js) && fresh(requests) && requests.list == []
      ensures Valid() && js.history == []
    {
      this.emq := emq;
      js := new JsState();
      requests := new Registry<Request>();
      dispatched, given := [], map[];
    }

    ghost predicate Listed()
      reads js`live, requests`head, requests`list, requests.list`next
    {
      requests.Linked() && js.live == requests.Ids()
    }

    /** The drain is watched exactly while a request is listed. */
    ghost predicate Watched()
      reads requests`head, emq, emq.watchers
    {
      emq.Valid() && emq.HasRoomFor(DRAIN) && (DRAIN in emq.List() <==> requests.head != null)
    }

    ghost function Here(): World
      reads js, `given
    {
      World(js.Now(), js.socks, given)
    }

    /** Each request stands as its events have left it, and the callbacks called are those they ask for. */
    ghost predicate Reported(served: seq<Event>)
      reads `dispatched, `given, js`queue, requests`list, requests.list`data
    {
      && (forall e :: e in js.queue ==> IsHttp(e))
      && (forall r :: r in requests.list ==>
            && r.id in given && given[r.id] == Fresh(given[r.id].command, given[r.id].progress)
            && r.data == AfterServed(given[r.id], Of(served, r.id)))
      && dispatched == Calls(given, served) && AllKnown(given, served)
    }

    /**
     * The callbacks a request was made with are called for its events and for
     * nothing else, one call an event, in the order of the events: -command once it
     * is done, with its id, and -progress with the numbers reported.
     */
    lemma CalledInOrder(i: nat, x: HttpEvent)
      requires Valid() && i < |js.served| && js.served[i].fields == HttpFields(x)
      ensures |dispatched| == CallsAsked(given, js.served) && js.served[i].id in given
      ensures var id := js.served[i].id;
              var n, r := CallsAsked(given, js.served[..i]), given[id];
              match x
              case Settled(_, _, _) =>
                && CallsAsked(given, js.served[..i + 1]) == n + (if r.command.Some? then 1 else 0) <= |dispatched|
                && (r.command.Some? ==> dispatched[n] == Dispatch(r.command.value, [Decimal(id)]))
              case Progress(total, loaded) =>
                && CallsAsked(given, js.served[..i + 1]) == n + (if r.progress.Some? then 1 else 0) <= |dispatched|
                && (r.progress.Some? ==>
                      dispatched[n] == Dispatch(r.progress.value, [Decimal(id), Decimal(total), Decimal(loaded)]))
    {
      hide HttpDecode, Polled, HttpFields, CallFor, Asks, Calls, AfterServed, JsState.Valid, Listed, Watched, Decimal;
      assert js.served[i] == Event(js.served[i].id, HttpFields(x));
      CallsInOrder(given, js.served, i);
      CallIs(given[js.served[i].id], js.served[i].id, x);
    }

    ghost predicate Valid()
      reads this, js, requests, requests.list, emq, emq.watchers
    {
      js.Valid() && Listed() && Watched() && Reported(js.served)
    }

    // -- the JavaScript handlers ------------------------------------------------------

    /** step and settle, of a request that was made at some time, cleaned up or not. */
    method Push(id: nat, x: HttpEvent)
      requires js.Valid() && Reported(js.served) && 0 < id < js.next
      modifies js
      ensures js.Valid() && Reported(js.served) && js.history == old(js.history) + [Step.Push(Event(id, HttpFields(x)))]
      ensures js.live == old(js.live) && js.next == old(js.next) && js.served == old(js.served)
      ensures Here() == AfterPush(old(Here()), id, x)
      ensures js.queue == old(js.queue) + [Event(id, HttpFields(x))]
      ensures js.socks == if x.Settled? then old(js.socks) - {id} else old(js.socks)
    {
      hide JsState.Valid, HttpDecode, Polled, HttpFields, Calls, AfterServed, Of;
      var e := Event(id, HttpFields(x));
      assert IsHttp(e);
      if x.Settled? {
        js.Drop(id);
      }
      js.Append(e);
    }

    method PushAll(id: nat, xs: seq<HttpEvent>)
      requires js.Valid() && Reported(js.served) && 0 < id < js.next
      modifies js
      ensures js.Valid() && Reported(js.served) && old(js.history) <= js.history
      ensures js.live == old(js.live) && js.next == old(js.next) && js.served == old(js.served)
      ensures Here() == AfterPushes(old(Here()), id, xs) && js.queue == old(js.queue) + Reports(id, xs)
    {
      hide JsState.Valid, Reported, AfterPush, AfterPushes, Reports;
      PushesNone(Here(), id);
      for i := 0 to |xs|
        invariant js.Valid() && Reported(js.served) && old(js.history) <= js.history
        invariant js.live == old(js.live) && js.next == old(js.next) && js.served == old(js.served)
        invariant Here() == AfterPushes(old(Here()), id, xs[..i])
        invariant js.queue == old(js.queue) + Reports(id, xs[..i])
      {
        PushesOneMore(old(Here()), id, xs, i);
        Push(id, xs[i]);
      }
      assert xs[..|xs|] == xs;
    }

    // -- the commands ---------------------------------------------------------------

    /** RequestCmd; what the browser queues before it returns is there already when the record joins the list. */
    method Start(command: Option<string>, progress: Option<string>, early: seq<HttpEvent>) returns (id: nat)
      requires Valid()
      modifies `given, js, requests, emq, emq.watchers
      ensures Valid() && id == old(js.next) && id in requests.Ids()
      ensures given == old(given)[id := Fresh(command, progress)]
      ensures given[id] == Request(command, progress, "", 0, "")
      ensures old(js.history) + [Step.Open] <= js.history && Here() == AfterStart(old(Here()), command, progress, early)
      ensures js.queue == old(js.queue) + Reports(id, early) && js.live == old(js.live) + {id}
      ensures EmQueues.AfterWatch(old(emq.Now()), DRAIN) == EmQueues.Going(emq.Now()) && emq.OnlyConcerns(DRAIN)
      ensures forall i :: 0 <= i < |requests.list| ==> requests.list[i] in old(requests.list) || fresh(requests.list[i])
    {
      hide Listed, Watched, Reported, JsState.Valid, Sound;
      js.Promises();
      id := Link(command, progress);
      PushAll(id, early);
    }

    /** The id and its record. */
    method Link(command: Option<string>, progress: Option<string>) returns (id: nat)
      requires Valid() && js.next !in js.live && Before(js.served, js.next) && js.next > 0
      modifies `given, js, requests, emq, emq.watchers
      ensures Valid() && js.history == old(js.history) + [Step.Open]
      ensures id == old(js.next) && id < js.next && id in requests.Ids()
      ensures given == old(given)[id := Fresh(command, progress)]
      ensures js.Now() == Delivery.Next(old(js.Now()), Step.Open) && js.socks == old(js.socks) + {id}
      ensures EmQueues.AfterWatch(old(emq.Now()), DRAIN) == EmQueues.Going(emq.Now()) && emq.OnlyConcerns(DRAIN)
      ensures forall i :: 0 <= i < |requests.list| ==> requests.list[i] in old(requests.list) || fresh(requests.list[i])
    {
      hide Listed, Watched, JsState.Valid, HttpDecode, Polled, HttpFields, AfterServed, Calls, Of, IsHttp;
      id := AddRequest(command, progress);
      NewRequest(js.served, id, Fresh(command, progress));
      given := given[id := Fresh(command, progress)];
    }

    /** Nothing has been served to a new request, and it changes nothing for the others. */
    lemma NewRequest(served: seq<Event>, id: nat, r: Request)
      requires Before(served, id)
      ensures AfterServed(r, Of(served, id)) == r
      ensures Calls(given[id := r], served) == Calls(given, served)
    {
      OfNone(served, id);
      CallsKept(given, served, id, r);
    }

    method AddRequest(command: Option<string>, progress: Option<string>) returns (id: nat)
      requires js.Valid() && Listed() && Watched() && js.next !in js.live
      modifies js, requests, emq, emq.watchers
      ensures js.Valid() && Listed() && Watched() && js.history == old(js.history) + [Step.Open]
      ensures js.Now() == Delivery.Next(old(js.Now()), Step.Open) && js.socks == old(js.socks) + {id}
      ensures EmQueues.AfterWatch(old(emq.Now()), DRAIN) == EmQueues.Going(emq.Now()) && emq.OnlyConcerns(DRAIN)
      ensures id == old(js.next) && requests.Ids() == old(requests.Ids()) + {id}
      ensures forall r :: r in requests.list ==>
                if r in old(requests.list) then r.id != id
                else fresh(r) && r.id == id && r.data == Fresh(command, progress)
    {
      hide OncePerId, Registry.Linked, JsState.Valid, EmQueues.AfterWatch, EmQueues.Sound;
      id := js.Create();
      var r := requests.Push(id, Fresh(command, progress));
      requests.HeadTells();
      var ok := emq.Watch(DRAIN);
    }

    /** CleanupCmd; false for an id that names no request. An abort may queue events, which go with the rest. */
    method Cleanup(id: nat, late: seq<HttpEvent>) returns (ok: bool)
      requires Valid()
      modifies js, requests, requests.list`next, emq, emq.watchers
      ensures Valid() && ok == (id in old(requests.Ids())) && id !in requests.Ids()
      ensures old(js.history) <= js.history && (ok ==> js.history[|js.history| - 1] == Step.Destroy(id))
      ensures (ok ==> Of(js.queue, id) == []) && Here() == AfterClean(old(Here()), id, late)
      ensures emq.Now() == if ok && js.live == {} then EmQueues.AfterUnwatch(old(emq.Now()), DRAIN) else old(emq.Now())
      ensures emq.OnlyConcerns(DRAIN)
      ensures forall i :: 0 <= i < |requests.list| ==> requests.list[i] in old(requests.list)
    {
      hide Reported, Registry.Linked, JsState.Valid, EmQueues.EmQueue.Valid, Of, AfterPushes;
      var r := requests.Find(id);
      if r == null {
        return false;
      }
      requests.HeadTells();
      hide Listed, Watched, AfterClean;
      JsClean(id, late);
      ReqForget(id);
      return true;
    }

    /** httpx_js_abort and httpx_js_forget. */
    method JsClean(id: nat, late: seq<HttpEvent>)
      requires js.Valid() && Reported(js.served) && id in js.live
      modifies js
      ensures js.Valid() && Reported(js.served) && js.live == old(js.live) - {id}
      ensures old(js.history) <= js.history && js.history[|js.history| - 1] == Step.Destroy(id)
      ensures Of(js.queue, id) == [] && Here() == AfterClean(old(Here()), id, late)
    {
      hide Reported, JsState.Valid, Of, AfterPushes;
      js.LiveIds();
      if id in js.socks {
        PushAll(id, late);
      }
      JsForget(id);
    }

    /** httpx_js_forget */
    method JsForget(id: nat)
      requires js.Valid() && Reported(js.served) && id in js.live
      modifies js
      ensures js.Valid() && js.history == old(js.history) + [Step.Destroy(id)] && Of(js.queue, id) == []
      ensures js.live == old(js.live) - {id} && Reported(js.served)
      ensures forall other :: Of(js.queue, other) == if other == id then [] else Of(old(js.queue), other)
      ensures js.Now() == Delivery.Next(old(js.Now()), Step.Destroy(id)) && js.socks == old(js.socks) - {id}
    {
      hide JsState.Valid, HttpDecode, Polled, IsHttp, AfterServed, Calls, Of;
      WithoutFrom(js.queue, id);
      OfWithout(js.queue, id, id);
      js.Forget(id);
    }

    /** ReqForget: the last record to go takes the watcher with it. */
    method ReqForget(id: nat)
      requires requests.Linked() && emq.Valid() && emq.HasRoomFor(DRAIN) && DRAIN in emq.List()
      requires js.live == requests.Ids() - {id} && Reported(js.served)
      modifies requests, requests.list`next, emq, emq.watchers
      ensures Listed() && Watched() && Reported(js.served) && id !in requests.Ids()
      ensures emq.Now() == if js.live == {} then EmQueues.AfterUnwatch(old(emq.Now()), DRAIN) else old(emq.Now())
      ensures emq.OnlyConcerns(DRAIN)
      ensures forall i :: 0 <= i < |requests.list| ==> requests.list[i] in old(requests.list)
    {
      hide OncePerId, Registry.Linked, HttpDecode, Polled, IsHttp, AfterServed, Calls, Of;
      hide EmQueues.AfterUnwatch, EmQueues.Sound;
      requests.Forget(id);
      requests.HeadTells();
      if requests.head == null {
        emq.Unwatch(DRAIN);
      }
    }

    /** QueryCmd: how the request stands, from the events it has been served. */
    method Query(id: nat) returns (r: Option<Request>)
      requires Valid()
      ensures r == if id in requests.Ids() then Some(AfterServed(given[id], Of(js.served, id))) else None
      ensures r.Some? ==> id in given && Stands(r.value, given[id], js.served, id)
    {
      hide HttpDecode, Polled, IsHttp, AfterServed, Calls, Of, Stands;
      if id in given {
        StandsAsServed(given[id], js.served, id);
      }
      var found := requests.Find(id);
      return if found == null then None else Some(found.data);
    }

    // -- Drain --------------------------------------------------------------------------

    /** One turn of the loop, up to the callback: whether there was an event, and a callback to call. */
    method TakeOne() returns (more: bool, called: bool)
      requires Valid()
      modifies `dispatched, js, requests.list`data
      ensures Valid() && more == (old(js.queue) != []) && (called ==> more)
      ensures requests.list == old(requests.list)
      ensures js.history == old(js.history) + if more then [Take] else []
      ensures js.Now() == (if more then Delivery.Next(old(js.Now()), Take) else old(js.Now()))
      ensures js.socks == old(js.socks)
      ensures called == (more && Calling(old(Here()), old(js.queue)[0]))
      ensures called == (more && old(js.queue)[0].id in js.live && Asks(given[old(js.queue)[0].id], old(js.queue)[0]))
      ensures |dispatched| == |old(dispatched)| + if called then 1 else 0
    {
      hide JsState.Valid, Listed, Watched, IsHttp, HttpDecode, Polled, AfterServed, Calls, Of, Join, Row;
      var event := js.Poll();
      if event == null {
        assert js.history + [] == js.history;
        return false, false;
      }
      called := Serve(event, old(js.queue)[0], old(js.served));
      more := true;
    }

    /** The event goes to the request it is for, if that is still there. */
    method Serve(event: array<char>, ghost e: Event, ghost served: seq<Event>) returns (called: bool)
      requires Listed() && Reported(served) && IsHttp(e) && event[..] == Join(Row(e)) + [NUL]
      modifies `dispatched, event, requests.list`data
      ensures Listed() && Reported(if e.id in js.live then served + [e] else served)
      ensures called == (e.id in js.live && e.id in given && CallFor(given[e.id], HttpDecode(Polled(e)).1) != [])
      ensures called == (e.id in js.live && Asks(given[e.id], e))
      ensures |dispatched| == |old(dispatched)| + if called then 1 else 0
    {
      hide Reported, HttpDecode, HttpFields, EmQueues.EmQueue.Valid, Join, Row, Cut;
      Heard(e);
      PolledText(Join(Row(e)));
      var id, news := Unpack(event);
      var r: Record?<Request> := null;
      if id >= 0 {
        r := requests.Find(id);
      }
      called := false;
      if r != null {
        called := Answer(r, news, e, served);
      }
    }

    /** The record is brought up to date before its callback is called. */
    method Answer(r: Record<Request>, news: News, ghost e: Event, ghost served: seq<Event>) returns (called: bool)
      requires requests.Linked() && Reported(served) && r in requests.list && r.id == e.id && IsHttp(e)
      requires news == HttpDecode(Polled(e)).1
      modifies `dispatched, r`data
      ensures requests.Linked() && Reported(served + [e])
      ensures called == (e.id in given && CallFor(given[e.id], HttpDecode(Polled(e)).1) != [])
      ensures e.id in given && called == Asks(given[e.id], e)
      ensures |dispatched| == |old(dispatched)| + if called then 1 else 0
    {
      hide HttpDecode, Polled, IsHttp, AfterServed, Calls, Of, OncePerId, Asks;
      KnownOneMore(given, served, e);
      AsksIsCall(given[r.id], e);
      ServedLast(r, e, served);
      OthersUnserved(r, e, served);
      CallsOneMore(given, served, e);
      CallbacksStay(given[r.id], Of(served, r.id));
      called := CallFor(r.data, news) != [];
      r.data := Settle(r.data, news);
      dispatched := dispatched + CallFor(r.data, news);
    }

    lemma ServedLast(r: Record<Request>, e: Event, served: seq<Event>)
      requires r.id == e.id && r.id in given
      ensures AfterServed(given[r.id], Of(served + [e], r.id))
              == Settle(AfterServed(given[r.id], Of(served, r.id)), HttpDecode(Polled(e)).1)
    {
      OfLast(served, e, r.id);
      ServedOneMore(given[r.id], Of(served, r.id), e);
    }

    lemma OthersUnserved(r: Record<Request>, e: Event, served: seq<Event>)
      requires requests.Linked() && r in requests.list && r.id == e.id
      ensures forall s :: s in requests.list && s != r ==> Of(served + [e], s.id) == Of(served, s.id)
    {
      forall s | s in requests.list && s != r
        ensures Of(served + [e], s.id) == Of(served, s.id)
      {
        OfLast(served, e, s.id);
        if s.id == r.id {
          requests.OnlyOne(r, s);
        }
      }
    }

    /** The event is for the request that reported it. */
    static lemma Heard(e: Event)
      requires IsHttp(e)
      ensures HttpDecode(Polled(e)).0 == e.id
    {
      var x :| e.fields == HttpFields(x);
      HttpRoundTrip(e.id, x);
      assert e == Event(e.id, HttpFields(x));
    }
  }

  /** The unpacking of one event, in its own buffer. */
  method Unpack(event: array<char>) returns (id: int, news: News)
    requires Terminated(event[..], 0)
    modifies event
    ensures (id, news) == HttpDecode(old(TextAt(event[..], 0)))
  {
    hide Split, TextAt, Leading;
    var at := SplitInPlace(event, 0, 5);
    var f := Texts(event[..], at);
    id := if |f| >= 2 then Leading(f[0], 0) else -1;
    if |f| >= 4 && f[1] == "progress" {
      news := Moved([f[0], f[2], f[3]]);
    } else if |f| >= 5 && f[1] == "done" {
      news := Done(f[0], f[2], Leading(f[3], 0), f[4]);
    } else {
      news := NoNews;
    }
  }
}
