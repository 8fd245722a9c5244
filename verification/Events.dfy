/** Events on their way from JavaScript to Tcl: packed by EmQueue_Poll, unpacked by the drains. */
module Events {
  import opened Fields
  import opened Delivery

  // -- numbers ------------------------------------------------------------------------

  const DIGITS := "0123456789"

  predicate IsDigit(c: char) { '0' <= c <= '9' }

  /** String(n) */
  function Decimal(n: nat): (s: string)
    ensures s != "" && forall i :: 0 <= i < |s| ==> IsDigit(s[i])
  {
    if n < 10 then [DIGITS[n]] else Decimal(n / 10) + [DIGITS[n % 10]]
  }

  /** strtol(s, NULL, 10) on text that starts with a digit: the number the leading digits spell. */
  function Leading(s: string, soFar: nat): nat {
    if s == "" || !IsDigit(s[0]) then soFar else Leading(s[1..], 10 * soFar + (s[0] - '0') as nat)
  }

  lemma OneDigit(d: nat, rest: string, soFar: nat)
    requires d < 10
    ensures Leading([DIGITS[d]] + rest, soFar) == Leading(rest, 10 * soFar + d)
  {
    assert ([DIGITS[d]] + rest)[1..] == rest;
  }

  lemma {:induction false} DecimalReads(n: nat, rest: string)
    ensures Leading(Decimal(n) + rest, 0) == Leading(rest, n)
  {
    hide Leading;
    OneDigit(n % 10, rest, n / 10);
    if n >= 10 {
      var d := [DIGITS[n % 10]];
      DecimalReads(n / 10, d + rest);
      assert Decimal(n) + rest == Decimal(n / 10) + (d + rest);
    }
  }

  /** strtol undoes String. */
  lemma NumberRoundTrip(n: nat)
    ensures Leading(Decimal(n), 0) == n
    ensures SEP !in Decimal(n) && NUL !in Decimal(n)
  {
    DecimalReads(n, "");
    assert Decimal(n) + "" == Decimal(n);
  }

  // -- packing ------------------------------------------------------------------------

  /** The array of an event, as join sees it. */
  function Row(e: Event): seq<string> { [Decimal(e.id)] + e.fields }

  /** What a NUL makes of text that goes through a C string. */
  function Cut(t: string): string {
    if t == "" || t[0] == NUL then "" else [t[0]] + Cut(t[1..])
  }

  lemma {:induction false} CutIsPrefix(t: string)
    ensures Cut(t) <= t && NulFree(Cut(t))
    ensures |Cut(t)| < |t| ==> t[|Cut(t)|] == NUL
  {
    if t != "" && t[0] != NUL {
      CutIsPrefix(t[1..]);
    }
  }

  /** Only text with a NUL in it is cut. */
  lemma CutsOnlyAtNul(t: string)
    ensures Cut(t) == t <==> NulFree(t)
  {
    CutIsPrefix(t);
  }

  /** The text of the C string that stringToNewUTF8 makes. */
  lemma PolledText(t: string)
    ensures TextAt(t + [NUL], 0) == Cut(t) && Terminated(t + [NUL], 0)
  {
    CutIsPrefix(t);
    var b := t + [NUL];
    assert b[0..|Cut(t)|] == Cut(t);
    HeldIsText(b, 0, Cut(t));
  }

  lemma {:induction false} CutAppends(a: string, t: string)
    requires NulFree(a)
    ensures Cut(a + t) == a + Cut(t)
    decreases |a|
  {
    if a == "" {
      assert a + t == t;
    } else {
      assert (a + t)[1..] == a[1..] + t;
      CutAppends(a[1..], t);
    }
  }

  /** A NUL in the last field cuts that field and nothing else. */
  lemma {:induction false} CutLastField(fields: seq<string>)
    requires fields != [] && forall i :: 0 <= i < |fields| - 1 ==> NulFree(fields[i])
    ensures Cut(Join(fields)) == Join(fields[|fields| - 1 := Cut(fields[|fields| - 1])])
    decreases |fields|
  {
    if |fields| > 1 {
      var cut := fields[|fields| - 1 := Cut(fields[|fields| - 1])];
      CutLastField(fields[1..]);
      assert fields[1..][|fields| - 2 := Cut(fields[|fields| - 1])] == cut[1..];
      assert NulFree(fields[0]);
      CutAppends(fields[0] + [SEP], Join(fields[1..]));
    }
  }

  /** The text of an event as a drain gets it. */
  function Polled(e: Event): string { Cut(Join(Row(e))) }

  lemma PolledRow(e: Event)
    requires e.fields != [] && forall i :: 0 <= i < |e.fields| - 1 ==> NulFree(e.fields[i])
    ensures Polled(e) == Join(Row(e)[..|e.fields|] + [Cut(e.fields[|e.fields| - 1])])
  {
    hide Join, Cut, Decimal;
    NumberRoundTrip(e.id);
    CutLastField(Row(e));
    var last := Cut(e.fields[|e.fields| - 1]);
    assert Row(e)[..|e.fields|] + [last] == Row(e)[|e.fields| := last];
  }

  // -- the JavaScript side --------------------------------------------------------------

  /**
   * globalThis.__wschan or globalThis.__httpx: the ids handed out, the sockets or
   * requests the browser still has, and the events that wait.
   */
  class JsState {
    var next: nat
    var socks: set<nat>
    var queue: seq<Event>

    /** The ids Tcl still has a record for, and everything that has happened. */
    ghost var live: set<nat>
    ghost var queued: seq<Event>
    ghost var served: seq<Event>
    ghost var history: seq<Step>

    constructor ()
      ensures Valid() && Now() == NEW && socks == {} && history == []
    {
      next, socks, queue := 1, {}, [];
      live, queued, served, history := {}, [], [], [];
    }

    ghost function Now(): Chan
      reads `next, `live, `queue, `queued, `served
    {
      Chan(next, live, queue, queued, served)
    }

    /** The state is where the steps so far lead. */
    ghost predicate Valid()
      reads `next, `live, `queue, `queued, `served, `history
    {
      Possible(NEW, history) && After(NEW, history) == Now()
    }

    /** What the history promises of the moment it has led to. */
    lemma Promises()
      requires Valid()
      ensures Sound(Now()) && next > 0 && next !in live && Before(served, next)
    {
      RunKeepsSound(NEW, history);
    }

    /** What is queued and who is live, from the recorded steps alone. */
    lemma Recorded()
      requires Valid()
      ensures queued == Pushed(history) && next == 1 + Opened(history)
      ensures forall id: nat :: id in live <==> 1 <= id < next && Destroy(id) !in history
    {
      RunTells(NEW, history);
    }

    lemma LiveIds()
      requires Valid()
      ensures forall id :: id in live ==> 0 < id < next
    {
      Promises();
    }

    /** An id that was gone at some moment of the history has not been served since. */
    lemma StillSilent(before: seq<Step>, id: nat)
      requires Valid() && before <= history && Possible(NEW, before)
      requires id < After(NEW, before).next && id !in After(NEW, before).live
      ensures id !in live && Of(served, id) == Of(After(NEW, before).served, id)
    {
      SilenceSince(before, history, id);
    }

    /** An id that is still live has been served all that was queued for it, once nothing waits. */
    lemma Drained(id: nat)
      requires Valid() && queue == [] && id in live
      ensures Of(served, id) == Of(queued, id)
    {
      DrainedIsComplete(history, id);
    }

    /** A new id, and the browser's object behind it. */
    method Create() returns (id: nat)
      requires Valid()
      modifies this
      ensures Valid() && history == old(history) + [Open] && Now() == Next(old(Now()), Open)
      ensures id == old(next) && socks == old(socks) + {id}
    {
      OneMore(NEW, history, Open);
      id := next;
      next := next + 1;
      socks := socks + {id};
      live, history := live + {id}, history + [Open];
    }

    /** delete st.reqs[id] */
    method Drop(id: nat)
      modifies `socks
      ensures socks == old(socks) - {id}
    {
      socks := socks - {id};
    }

    /** queue.push, from a handler made at some time for this id. */
    method Append(e: Event)
      requires Valid() && 0 < e.id < next
      modifies `queue, `queued, `history
      ensures Valid() && history == old(history) + [Push(e)] && Now() == Next(old(Now()), Push(e))
    {
      OneMore(NEW, history, Push(e));
      queue := queue + [e];
      queued, history := queued + [e], history + [Push(e)];
    }

    /** queue.filter((ev) => ev[0] !== id), for a record that is about to go. */
    method Forget(id: nat)
      requires Valid() && id in live
      modifies this
      ensures Valid() && history == old(history) + [Destroy(id)] && Now() == Next(old(Now()), Destroy(id))
      ensures socks == old(socks) - {id}
      ensures forall other :: Of(queue, other) == if other == id then [] else Of(old(queue), other)
    {
      OneMore(NEW, history, Destroy(id));
      forall other
        ensures Of(Without(queue, id), other) == if other == id then [] else Of(queue, other)
      {
        OfWithout(queue, id, other);
      }
      socks := socks - {id};
      Filter(id);
      live, history := live - {id}, history + [Destroy(id)];
    }

    method Filter(id: nat)
      modifies `queue
      ensures queue == Without(old(queue), id)
    {
      var kept: seq<Event> := [];
      for i := 0 to |queue|
        invariant kept + Without(queue[i..], id) == Without(queue, id)
      {
        assert queue[i..][1..] == queue[i + 1..];
        if queue[i].id != id {
          kept := kept + [queue[i]];
        }
      }
      queue := kept;
    }

    /** EmQueue_Poll: the oldest event, packed; null when there is none. */
    method Poll() returns (packed: array?<char>)
      requires Valid()
      modifies `queue, `served, `history
      ensures Valid() && (packed == null <==> old(queue) == [])
      ensures packed == null ==> Now() == old(Now()) && history == old(history)
      ensures packed != null ==> history == old(history) + [Take] && Now() == Next(old(Now()), Take)
      ensures packed != null ==> fresh(packed) && packed[..] == Join(Row(old(queue)[0])) + [NUL]
    {
      if |queue| == 0 {
        return null;
      }
      OneMore(NEW, history, Take);
      ghost var e := queue[0];
      var text := Join(Row(queue[0])) + [NUL];
      queue := queue[1..];
      served, history := if e.id in live then served + [e] else served, history + [Take];
      packed := new char[|text|](i requires 0 <= i < |text| => text[i]);
      assert packed[..] == text;
    }
  }
}
