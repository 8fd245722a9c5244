/** The WebSocket client of emscripten/wschan.c. */
module WsChans {
  import opened Fields
  import opened Delivery
  import opened Events
  import opened Registries
  import EmQueues

  // -- what a socket reports --------------------------------------------------------

  datatype WsEvent =
    | WsOpen
    | WsMessage(text: string)
    | WsClose(code: nat, reason: string)
    | WsError(message: string)

  /** What the handlers of ws_js_open push after the id. */
  function WsFields(x: WsEvent): (fields: seq<string>)
    ensures |fields| > 0
  {
    match x
    case WsOpen => ["open"]
    case WsMessage(text) => ["message", text]
    case WsClose(code, reason) => ["close", Decimal(code), reason]
    case WsError(message) => ["error", message]
  }

  /** The event with its free text cut at a NUL, if it has one. */
  function Trimmed(x: WsEvent): WsEvent {
    match x
    case WsOpen => x
    case WsMessage(text) => WsMessage(Cut(text))
    case WsClose(code, reason) => WsClose(code, Cut(reason))
    case WsError(message) => WsError(Cut(message))
  }

  predicate TextNulFree(x: WsEvent) {
    match x
    case WsOpen => true
    case WsMessage(text) => NulFree(text)
    case WsClose(_, reason) => NulFree(reason)
    case WsError(message) => NulFree(message)
  }

  /** The unpacking in Drain: the id, or -1 if there is none, and the words for the handler. */
  function WsDecode(s: string): (int, seq<string>) {
    var f := Split(s, 3);
    (if |f| >= 2 then Leading(f[0], 0) else -1,
     if |f| == 3 && f[1] == "close" then [f[1]] + Split(f[2], 2) else f[1..])
  }

  /** Two words: the second may hold anything. */
  lemma TwoWords(id: nat, kind: string, text: string)
    requires NulFree(kind) && SEP !in kind && kind != "close"
    ensures WsDecode(Polled(Event(id, [kind, text]))) == (id, [kind, Cut(text)])
  {
    hide Join, Split, Cut, Leading, Decimal, Polled;
    var row := [Decimal(id), kind, Cut(text)];
    PolledRow(Event(id, [kind, text]));
    NumberRoundTrip(id);
    JoinSplits(row, 3);
    assert Row(Event(id, [kind, text]))[..2] + [Cut(text)] == row;
  }

  /** A close has a field after its code, so its tail is split once more. */
  lemma CloseWords(id: nat, code: nat, reason: string)
    ensures WsDecode(Polled(Event(id, ["close", Decimal(code), reason]))) == (id, ["close", Decimal(code), Cut(reason)])
  {
    hide Join, Split, Cut, Leading, Decimal, Polled;
    var e := Event(id, ["close", Decimal(code), reason]);
    var rest := [Decimal(code), Cut(reason)];
    var row := [Decimal(id), "close", Join(rest)];
    NumberRoundTrip(id);
    NumberRoundTrip(code);
    PolledRow(e);
    assert ["close"] + rest == ["close", Decimal(code), Cut(reason)];
    JoinSplits(rest, 2);
    JoinSplits(row, 3);
    JoinTail(Decimal(id), "close", Decimal(code), Cut(reason));
    assert Row(e)[..3] + [Cut(reason)] == [Decimal(id), "close", Decimal(code), Cut(reason)];
  }

  lemma JoinMore(first: string, rest: seq<string>)
    requires rest != []
    ensures Join([first] + rest) == first + [SEP] + Join(rest)
  {
    assert ([first] + rest)[1..] == rest;
  }

  lemma JoinTail(a: string, b: string, c: string, d: string)
    ensures Join([a, b, c, d]) == Join([a, b, Join([c, d])])
  {
    var tail := Join([c, d]);
    assert Join([tail]) == tail;
    hide Join;
    JoinMore(a, [b, c, d]);
    JoinMore(b, [c, d]);
    JoinMore(a, [b, tail]);
    JoinMore(b, [tail]);
    assert [a, b, c, d] == [a] + [b, c, d] && [b, c, d] == [b] + [c, d];
    assert [a, b, tail] == [a] + [b, tail] && [b, tail] == [b] + [tail];
  }

  lemma OneWord(id: nat)
    ensures WsDecode(Polled(Event(id, ["open"]))) == (id, ["open"])
  {
    hide Join, Split, Cut, Leading, Decimal;
    var row := [Decimal(id), "open"];
    NumberRoundTrip(id);
    CutLastField(row);
    CutsOnlyAtNul("open");
    JoinSplits(row, 3);
    assert Row(Event(id, ["open"])) == row == row[1 := "open"];
  }

  /**
   * What a socket reports is what its handler hears, separators in the text
   * included; only a NUL cuts the text short.
   */
  lemma WsRoundTrip(id: nat, x: WsEvent)
    ensures WsDecode(Polled(Event(id, WsFields(x)))) == (id, WsFields(Trimmed(x)))
    ensures Trimmed(x) == x <==> TextNulFree(x)
  {
    hide WsDecode, Polled, Decimal, Cut;
    match x
    case WsOpen => OneWord(id);
    case WsMessage(text) =>
      CutsOnlyAtNul(text);
      TwoWords(id, "message", text);
    case WsClose(code, reason) =>
      CutsOnlyAtNul(reason);
      CloseWords(id, code, reason);
    case WsError(message) =>
      CutsOnlyAtNul(message);
      TwoWords(id, "error", message);
  }

  // -- the sockets Tcl knows about ----------------------------------------------------

  /** Drain as a watcher. */
  const DRAIN := EmQueues.Watcher(1, 0)

  /** EmQueue_Dispatch: a socket's -command is called with these words. */
  datatype Dispatch = Dispatch(id: nat, command: string, words: seq<string>)

  class WsChan {
    const js: JsState
    const sockets: Registry<string>
    const emq: EmQueues.EmQueue

    /** The handler calls made, and the -command each id was opened with. */
    ghost var dispatched: seq<Dispatch>
    ghost var commands: map<nat, string>

    constructor (emq: EmQueues.EmQueue)
      requires emq.Valid() && emq.HasRoomFor(DRAIN) && DRAIN !in emq.List()
      ensures this.emq == emq && fresh(js) && fresh(sockets) && sockets.list == []
      ensures Valid() && js.history == []
    {
      this.emq := emq;
      js := new JsState();
      sockets := new Registry<string>();
      dispatched, commands := [], map[];
    }

    /** The list is what the browser has. */
    ghost predicate Listed()
      reads js`live, js`socks, sockets`head, sockets`list, sockets.list`next
    {
      sockets.Linked() && js.live == js.socks == sockets.Ids()
    }

    /** The drain is watched exactly while a socket is listed. */
    ghost predicate Watched()
      reads sockets`head, emq, emq.watchers
    {
      emq.Valid() && emq.HasRoomFor(DRAIN) && (DRAIN in emq.List() <==> sockets.head != null)
    }

    /** Only socket events wait, and the handlers have been called with just these events, unpacked. */
    ghost predicate Reported(served: seq<Event>)
      reads `dispatched, `commands, js`queue, sockets`list, sockets.list`data
    {
      && (forall e :: e in js.queue ==> IsWs(e))
      && (forall r :: r in sockets.list ==> r.id in commands && commands[r.id] == r.data)
      && |dispatched| == |served|
      && (forall i :: 0 <= i < |served| ==>
            && served[i].id in commands
            && dispatched[i] == Dispatch(served[i].id, commands[served[i].id], WsDecode(Polled(served[i])).1))
    }

    ghost predicate Valid()
      reads this, js, sockets, sockets.list, emq, emq.watchers
    {
      js.Valid() && Listed() && Watched() && Reported(js.served)
    }

    /**
     * The command a socket was opened with has heard what was reported to it, in
     * order and to the letter but for NULs.
     */
    lemma HeardInOrder(i: nat, x: WsEvent)
      requires Valid() && i < |js.served| && js.served[i].fields == WsFields(x)
      ensures i < |dispatched| && js.served[i].id in commands
      ensures dispatched[i].id == js.served[i].id && dispatched[i].command == commands[js.served[i].id]
      ensures match x
              case WsOpen => dispatched[i].words == ["open"]
              case WsMessage(text) => dispatched[i].words == ["message", Cut(text)]
              case WsClose(code, reason) => dispatched[i].words == ["close", Decimal(code), Cut(reason)]
              case WsError(message) => dispatched[i].words == ["error", Cut(message)]
    {
      WsRoundTrip(js.served[i].id, x);
      assert js.served[i] == Event(js.served[i].id, WsFields(x));
    }

    // -- the commands ---------------------------------------------------------------

    /** WsOpenCmd, for a WebSocket the browser has made. */
    method Open(command: string) returns (id: nat)
      requires Valid()
      modifies `commands, js, sockets, emq, emq.watchers
      ensures Valid() && id == old(js.next) && id in sockets.Ids() && commands == old(commands)[id := command]
      ensures js.history == old(js.history) + [Step.Open] && js.Now() == Delivery.Next(old(js.Now()), Step.Open)
      ensures EmQueues.AfterWatch(old(emq.Now()), DRAIN) == EmQueues.Going(emq.Now()) && emq.OnlyConcerns(DRAIN)
      ensures forall i :: 0 <= i < |sockets.list| ==> sockets.list[i] in old(sockets.list) || fresh(sockets.list[i])
    {
      hide Listed, Watched, Sound, JsState.Valid, WsDecode, Polled, IsWs;
      js.Promises();
      id := Link(command);
      commands := commands[id := command];
    }

    /** The record joins the list, and the drain is watched. */
    method Link(command: string) returns (id: nat)
      requires js.Valid() && Listed() && Watched() && js.next !in js.live
      modifies js, sockets, emq, emq.watchers
      ensures js.Valid() && Listed() && Watched() && js.history == old(js.history) + [Step.Open]
      ensures EmQueues.AfterWatch(old(emq.Now()), DRAIN) == EmQueues.Going(emq.Now()) && emq.OnlyConcerns(DRAIN)
      ensures js.Now() == Delivery.Next(old(js.Now()), Step.Open)
      ensures id == old(js.next) && sockets.Ids() == old(sockets.Ids()) + {id}
      ensures forall r :: r in sockets.list ==>
                if r in old(sockets.list) then r.id != id else fresh(r) && r.id == id && r.data == command
    {
      hide OncePerId, Registry.Linked, JsState.Valid, EmQueues.AfterWatch, EmQueues.Sound;
      id := js.Create();
      var r := sockets.Push(id, command);
      sockets.HeadTells();
      var ok := emq.Watch(DRAIN);
    }

    /** WsDestroyCmd; false for an id that names no socket. */
    method Destroy(id: nat) returns (ok: bool)
      requires Valid()
      modifies js, sockets, sockets.list`next, emq, emq.watchers
      ensures Valid() && ok == (id in old(sockets.Ids())) && id !in sockets.Ids()
      ensures js.history == old(js.history) + if ok then [Step.Destroy(id)] else []
      ensures js.Now() == if id in old(js.live) then Delivery.Next(old(js.Now()), Step.Destroy(id)) else old(js.Now())
      ensures forall other :: Of(js.queue, other) == if ok && other == id then [] else Of(old(js.queue), other)
      ensures emq.Now() == if ok && js.live == {} then EmQueues.AfterUnwatch(old(emq.Now()), DRAIN) else old(emq.Now())
      ensures emq.OnlyConcerns(DRAIN)
      ensures forall i :: 0 <= i < |sockets.list| ==> sockets.list[i] in old(sockets.list)
    {
      hide Reported, Registry.Linked, JsState.Valid, EmQueues.EmQueue.Valid;
      var s := sockets.Find(id);
      if s == null {
        assert js.history + [] == js.history;
        return false;
      }
      sockets.HeadTells();
      hide Listed, Watched;
      JsDelete(id);
      SockForget(id);
      return true;
    }

    /** ws_js_delete */
    method JsDelete(id: nat)
      requires js.Valid() && Reported(js.served) && id in js.live && id in js.socks
      modifies js
      ensures js.Valid() && js.history == old(js.history) + [Step.Destroy(id)]
      ensures js.Now() == Delivery.Next(old(js.Now()), Step.Destroy(id))
      ensures js.live == old(js.live) - {id} && js.socks == old(js.socks) - {id} && Reported(js.served)
      ensures forall other :: Of(js.queue, other) == if other == id then [] else Of(old(js.queue), other)
    {
      hide JsState.Valid, WsDecode, Polled, IsWs;
      WithoutFrom(js.queue, id);
      if id !in js.socks {
        return;
      }
      js.Forget(id);
    }

    /** SockForget: the last record to go takes the watcher with it. */
    method SockForget(id: nat)
      requires sockets.Linked() && emq.Valid() && emq.HasRoomFor(DRAIN) && DRAIN in emq.List()
      requires js.live == js.socks == sockets.Ids() - {id} && Reported(js.served)
      modifies sockets, sockets.list`next, emq, emq.watchers
      ensures Listed() && Watched() && Reported(js.served) && id !in sockets.Ids()
      ensures emq.Now() == if js.live == {} then EmQueues.AfterUnwatch(old(emq.Now()), DRAIN) else old(emq.Now())
      ensures emq.OnlyConcerns(DRAIN)
      ensures forall i :: 0 <= i < |sockets.list| ==> sockets.list[i] in old(sockets.list)
    {
      hide OncePerId, Registry.Linked, WsDecode, Polled, IsWs, EmQueues.AfterUnwatch, EmQueues.Sound;
      sockets.Forget(id);
      sockets.HeadTells();
      if sockets.head == null {
        emq.Unwatch(DRAIN);
      }
    }

    // -- the JavaScript handlers ------------------------------------------------------

    /** A handler of a socket that was made at some time, destroyed or not. */
    method Push(id: nat, x: WsEvent)
      requires Valid() && 0 < id < js.next
      modifies js
      ensures Valid() && js.history == old(js.history) + [Step.Push(Event(id, WsFields(x)))]
      ensures js.queue == old(js.queue) + [Event(id, WsFields(x))] && js.live == old(js.live)
      ensures js.Now() == Delivery.Next(old(js.Now()), Step.Push(Event(id, WsFields(x))))
    {
      hide JsState.Valid, Listed, Watched, WsDecode, Polled, WsFields;
      var e := Event(id, WsFields(x));
      assert IsWs(e);
      js.Append(e);
    }

    // -- Drain --------------------------------------------------------------------------

    /** One turn of the loop, up to the handler: whether there was an event, and a handler to call. */
    method TakeOne() returns (more: bool, called: bool)
      requires Valid()
      modifies `dispatched, js
      ensures Valid() && more == (old(js.queue) != []) && (called ==> more)
      ensures js.history == old(js.history) + if more then [Take] else []
      ensures js.Now() == if more then Delivery.Next(old(js.Now()), Take) else old(js.Now())
      ensures called == (more && old(js.queue)[0].id in js.live)
    {
      hide JsState.Valid, Listed, Watched, IsWs, WsDecode, Polled, Join, Row;
      var event := js.Poll();
      if event == null {
        assert js.history + [] == js.history;
        return false, false;
      }
      called := Serve(event, old(js.queue)[0], old(js.served));
      more := true;
    }

    /** The event goes to the socket it is for, if that is still there. */
    method Serve(event: array<char>, ghost e: Event, ghost served: seq<Event>) returns (called: bool)
      requires Listed() && Reported(served) && IsWs(e) && event[..] == Join(Row(e)) + [NUL]
      modifies `dispatched, event
      ensures Listed() && Reported(if e.id in js.live then served + [e] else served)
      ensures called == (e.id in js.live)
    {
      hide Reported, WsDecode, WsFields, EmQueues.EmQueue.Valid, Join, Row, Cut;
      Heard(e);
      PolledText(Join(Row(e)));
      var id, words := Unpack(event);
      var s: Record?<string> := null;
      if id >= 0 {
        s := sockets.Find(id);
      }
      called := s != null;
      if s != null {
        Answer(s, words, e, served);
      }
    }

    /** EmQueue_Dispatch */
    method Answer(s: Record<string>, words: seq<string>, ghost e: Event, ghost served: seq<Event>)
      requires Reported(served) && s in sockets.list && s.id == e.id && words == WsDecode(Polled(e)).1
      modifies `dispatched
      ensures Reported(served + [e])
    {
      hide WsDecode, Polled, IsWs;
      dispatched := dispatched + [Dispatch(s.id, s.data, words)];
    }

    /** The event is for the socket that reported it. */
    static lemma Heard(e: Event)
      requires IsWs(e)
      ensures WsDecode(Polled(e)).0 == e.id
    {
      var x :| e.fields == WsFields(x);
      WsRoundTrip(e.id, x);
      assert e == Event(e.id, WsFields(x));
    }
  }

  /** The unpacking of one event, in its own buffer. */
  method Unpack(event: array<char>) returns (id: int, words: seq<string>)
    requires Terminated(event[..], 0)
    modifies event
    ensures (id, words) == WsDecode(old(TextAt(event[..], 0)))
  {
    hide Split, TextAt, Leading;
    var fields := SplitInPlace(event, 0, 3);
    ghost var f := Texts(event[..], fields);
    id := if |fields| >= 2 then Leading(TextAt(event[..], fields[0]), 0) else -1;
    if |fields| == 3 && TextAt(event[..], fields[1]) == "close" {
      ghost var before := event[..];
      var more := SplitInPlace(event, fields[2], 2);
      SameText(before, event[..], fields[1]);
      fields := fields[..2] + more;
      assert Texts(event[..], fields[1..]) == [f[1]] + Texts(event[..], more);
    }
    words := Texts(event[..], fields[1..]);
    assert |f| != 3 || f[1] != "close" ==> words == f[1..];
  }

  ghost predicate IsWs(e: Event) { exists x :: e.fields == WsFields(x) }
}
