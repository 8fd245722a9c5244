/** Packing fields into one string and taking it apart again in place: emscripten/emqueue.c. */
module Fields {
  /** EMQ_SEP, the ASCII unit separator. */
  const SEP := '\U{001F}'
  const NUL := '\0'

  // -- C strings in a buffer ----------------------------------------------------

  /** The C string at an offset. */
  function TextAt(b: seq<char>, at: nat): string
    decreases |b| - at
  {
    if at >= |b| || b[at] == NUL then "" else [b[at]] + TextAt(b, at + 1)
  }

  predicate NulFree(t: string) { NUL !in t }

  /** The text stands at the offset, with its NUL. */
  predicate Holds(b: seq<char>, at: nat, t: string) {
    at + |t| < |b| && b[at..at + |t|] == t && b[at + |t|] == NUL && NulFree(t)
  }

  lemma {:induction false} HeldIsText(b: seq<char>, at: nat, t: string)
    requires Holds(b, at, t)
    ensures TextAt(b, at) == t
    decreases |t|
  {
    if t != "" {
      assert b[at] == t[0];
      assert b[at + 1..at + |t|] == t[1..];
      HeldIsText(b, at + 1, t[1..]);
    }
  }

  /** A C string depends on nothing but its own characters. */
  lemma {:induction false} SameText(b: seq<char>, c: seq<char>, at: nat)
    requires Terminated(b, at) && |b| == |c|
    requires forall i :: at <= i <= at + |TextAt(b, at)| ==> b[i] == c[i]
    ensures TextAt(c, at) == TextAt(b, at)
    decreases |b| - at
  {
    assert b[at] == c[at];
    if b[at] != NUL {
      SameText(b, c, at + 1);
    }
  }

  /** A string that is terminated inside the buffer. */
  predicate Terminated(b: seq<char>, at: nat) { at + |TextAt(b, at)| < |b| }

  lemma {:induction false} TextIsHeld(b: seq<char>, at: nat)
    requires Terminated(b, at)
    ensures Holds(b, at, TextAt(b, at))
    decreases |b| - at
  {
    if b[at] != NUL {
      TextIsHeld(b, at + 1);
      assert b[at..at + |TextAt(b, at)|] == [b[at]] + b[at + 1..at + |TextAt(b, at)|];
    }
  }

  // -- joining and splitting ------------------------------------------------------

  function Join(fields: seq<string>): string {
    if |fields| == 0 then "" else if |fields| == 1 then fields[0] else fields[0] + [SEP] + Join(fields[1..])
  }

  function Seps(s: string): nat {
    if s == "" then 0 else (if s[0] == SEP then 1 else 0) + Seps(s[1..])
  }

  function IndexOfSep(s: string): (k: nat)
    ensures k <= |s| && SEP !in s[..k]
    ensures k < |s| ==> s[k] == SEP
    ensures k < |s| <==> SEP in s
  {
    if s == "" then 0
    else if s[0] == SEP then 0
    else
      var k := IndexOfSep(s[1..]);
      assert s[..k + 1] == [s[0]] + s[1..][..k];
      k + 1
  }

  /** At most max fields; only the last one keeps separators. */
  function Split(s: string, max: nat): seq<string>
    requires max > 0
    decreases max
  {
    if max == 1 || SEP !in s then [s]
    else [s[..IndexOfSep(s)]] + Split(s[IndexOfSep(s) + 1..], max - 1)
  }

  /** No field but the last has a separator in it. */
  predicate SepsOnlyInLast(fields: seq<string>) {
    forall i :: 0 <= i < |fields| - 1 ==> SEP !in fields[i]
  }

  lemma {:induction false} SepsAt(s: string, k: nat)
    requires k <= |s| && SEP !in s[..k]
    ensures Seps(s) == Seps(s[k..])
  {
    if k > 0 {
      assert s[0] == s[..k][0];
      assert s[1..][..k - 1] == s[..k][1..];
      assert forall c :: c in s[..k][1..] ==> c in s[..k];
      SepsAt(s[1..], k - 1);
      assert s[1..][k - 1..] == s[k..];
    } else {
      assert s[0..] == s;
    }
  }

  lemma NoSeps(s: string)
    requires SEP !in s
    ensures Seps(s) == 0
  {
    assert s[..|s|] == s;
    SepsAt(s, |s|);
  }

  /** Splitting undoes joining: the fields joined are the string again, cut at every separator there is room for. */
  lemma {:induction false} SplitJoins(s: string, max: nat)
    requires max > 0
    ensures var fields := Split(s, max);
            && Join(fields) == s
            && |fields| == (if max <= Seps(s) + 1 then max else Seps(s) + 1)
            && SepsOnlyInLast(fields)
    decreases max
  {
    if SEP !in s {
      NoSeps(s);
    } else if max > 1 {
      var k := IndexOfSep(s);
      SepsAt(s, k);
      assert s[k..][1..] == s[k + 1..];
      SplitJoins(s[k + 1..], max - 1);
      assert s == s[..k] + [SEP] + s[k + 1..];
      assert Split(s, max)[1..] == Split(s[k + 1..], max - 1);
    }
  }

  lemma {:induction false} FirstSep(a: string, rest: string)
    requires SEP !in a
    ensures IndexOfSep(a + [SEP] + rest) == |a|
  {
    var s := a + [SEP] + rest;
    if a != "" {
      assert s[1..] == a[1..] + [SEP] + rest;
      FirstSep(a[1..], rest);
    }
  }

  lemma SplitStep(a: string, rest: string, max: nat)
    requires SEP !in a && max > 1
    ensures Split(a + [SEP] + rest, max) == [a] + Split(rest, max - 1)
  {
    var s := a + [SEP] + rest;
    FirstSep(a, rest);
    assert s[|a|] == SEP;
    assert s[..|a|] == a && s[|a| + 1..] == rest;
  }

  /** ... and joining is undone by splitting, whatever the last field holds if there is no room for more. */
  lemma {:induction false} JoinSplits(fields: seq<string>, max: nat)
    requires 0 < |fields| <= max && SepsOnlyInLast(fields)
    requires |fields| < max ==> SEP !in fields[|fields| - 1]
    ensures Split(Join(fields), max) == fields
    decreases |fields|
  {
    hide Split, IndexOfSep;
    if |fields| == 1 {
      SplitWhole(fields[0], max);
    } else {
      SplitStep(fields[0], Join(fields[1..]), max);
      JoinSplits(fields[1..], max - 1);
      assert fields == [fields[0]] + fields[1..];
    }
  }

  lemma SplitWhole(s: string, max: nat)
    requires max == 1 || (max > 1 && SEP !in s)
    ensures Split(s, max) == [s]
  {}

  // -- EmQueue_Split ----------------------------------------------------------------

  /** The strings at the given offsets. */
  function Texts(b: seq<char>, at: seq<nat>): (t: seq<string>)
    ensures |t| == |at|
  {
    seq(|at|, i requires 0 <= i < |at| => TextAt(b, at[i]))
  }

  /** What the loop keeps: the parts cut off so far stand before `from`, each at its offset. */
  predicate Parts(b: seq<char>, at: seq<nat>, cut: seq<string>, from: nat) {
    && |cut| <= |at|
    && forall i :: 0 <= i < |cut| ==> at[i] + |cut[i]| < from && Holds(b, at[i], cut[i])
  }

  lemma PartsKept(b: seq<char>, c: seq<char>, at: seq<nat>, cut: seq<string>, from: nat)
    requires Parts(b, at, cut, from) && from <= |b| == |c| && b[..from] == c[..from]
    ensures Parts(c, at, cut, from)
  {
    forall i | 0 <= i < |cut|
      ensures Holds(c, at[i], cut[i])
    {
      var end := at[i] + |cut[i]|;
      assert b[at[i]..end] == b[..from][at[i]..end] == c[at[i]..end];
      assert b[end] == b[..from][end] == c[end];
    }
  }

  /**
   * What the loop keeps at p: the parts cut off so far, and the rest of the text
   * behind them, with no separator before p.
   */
  predicate Cutting(b: seq<char>, at: seq<nat>, s: string, max: nat, cut: seq<string>, rest: string, p: nat) {
    && |at| == |cut| + 1 <= max
    && at[|cut|] <= p <= at[|cut|] + |rest| < |b|
    && Parts(b, at, cut, at[|cut|]) && Holds(b, at[|cut|], rest) && SEP !in rest[..p - at[|cut|]]
    && Split(s, max) == cut + Split(rest, max - |cut|)
  }

  lemma CharAt(b: seq<char>, at: nat, t: string, p: nat)
    requires Holds(b, at, t) && at <= p <= at + |t|
    ensures b[p] == if p == at + |t| then NUL else t[p - at]
    ensures b[p] == NUL <==> p == at + |t|
  {
    if p < at + |t| {
      assert b[p] == b[at..at + |t|][p - at];
    }
  }

  lemma CutHere(b: seq<char>, at: seq<nat>, s: string, max: nat, cut: seq<string>, rest: string, p: nat)
    requires Cutting(b, at, s, max, cut, rest, p) && b[p] == SEP && |at| < max
    ensures var k := p - at[|cut|];
            && k < |rest|
            && Cutting(b[p := NUL], at + [p + 1], s, max, cut + [rest[..k]], rest[k + 1..], p + 1)
            && p + 1 + |rest[k + 1..]| == at[|cut|] + |rest|
  {
    hide Split;
    var cur := at[|cut|];
    CharAt(b, cur, rest, p);
    var part, more, c := rest[..p - cur], rest[p - cur + 1..], b[p := NUL];
    assert rest == part + [SEP] + more;
    SplitStep(part, more, max - |cut|);
    assert (cut + [part]) + Split(more, max - |cut| - 1) == cut + ([part] + Split(more, max - |cut| - 1));
    assert Holds(b, cur, rest) && NulFree(part) && NulFree(more);
    assert c[cur..p] == b[cur..cur + |rest|][..p - cur] == part;
    assert c[p + 1..cur + |rest|] == b[cur..cur + |rest|][p - cur + 1..] == more;
    MoreParts(b, at, cut, p, part);
  }

  lemma MoreParts(b: seq<char>, at: seq<nat>, cut: seq<string>, p: nat, part: string)
    requires |at| == |cut| + 1 && Parts(b, at, cut, at[|cut|]) && at[|cut|] + |part| == p < |b|
    requires b[at[|cut|]..p] == part && NulFree(part)
    ensures Parts(b[p := NUL], at + [p + 1], cut + [part], p + 1)
  {
    PartsKept(b, b[p := NUL], at, cut, at[|cut|]);
    assert b[p := NUL][at[|cut|]..p] == part;
  }

  lemma PassBy(b: seq<char>, at: seq<nat>, s: string, max: nat, cut: seq<string>, rest: string, p: nat)
    requires Cutting(b, at, s, max, cut, rest, p) && b[p] != SEP && b[p] != NUL
    ensures Cutting(b, at, s, max, cut, rest, p + 1)
  {
    var k := p - at[|cut|];
    CharAt(b, at[|cut|], rest, p);
    assert rest[..k + 1] == rest[..k] + [rest[k]];
  }

  lemma CutDone(b: seq<char>, at: seq<nat>, s: string, max: nat, cut: seq<string>, rest: string, p: nat)
    requires Cutting(b, at, s, max, cut, rest, p) && (b[p] == NUL || |at| == max)
    ensures Texts(b, at) == Split(s, max) && forall i :: 0 <= i < |at| ==> Terminated(b, at[i])
    ensures forall i :: 0 <= i < |at| - 1 ==> at[i] + |TextAt(b, at[i])| < at[|at| - 1]
  {
    CharAt(b, at[|cut|], rest, p);
    if b[p] == NUL {
      assert rest[..|rest|] == rest;
    }
    SplitWhole(rest, max - |cut|);
    forall i | 0 <= i < |at|
      ensures TextAt(b, at[i]) == (cut + [rest])[i] && Terminated(b, at[i])
    {
      HeldIsText(b, at[i], (cut + [rest])[i]);
    }
  }

  lemma CutStarts(b: seq<char>, start: nat, max: nat)
    requires Terminated(b, start) && max > 0
    ensures Cutting(b, [start], TextAt(b, start), max, [], TextAt(b, start), start)
  {
    TextIsHeld(b, start);
    hide Split, TextAt;
  }

  lemma InText(b: seq<char>, at: seq<nat>, s: string, max: nat, cut: seq<string>, rest: string, p: nat)
    requires Cutting(b, at, s, max, cut, rest, p)
    ensures 0 < |at| == |cut| + 1 <= max && at[|at| - 1] <= p <= at[|at| - 1] + |rest| < |b|
    ensures b[p] == NUL <==> p == at[|at| - 1] + |rest|
  {
    CharAt(b, at[|cut|], rest, p);
  }

  /** EmQueue_Split: separators are overwritten, and the offsets of the fields returned. */
  method SplitInPlace(packed: array<char>, start: nat, max: int) returns (fields: seq<nat>)
    requires Terminated(packed[..], start)
    modifies packed
    ensures Texts(packed[..], fields) == if max <= 0 then [] else Split(old(TextAt(packed[..], start)), max)
    ensures forall i :: 0 <= i < |fields| ==> Terminated(packed[..], fields[i])
    ensures max > 0 ==> fields != [] && fields[0] == start
    ensures forall i :: 0 <= i < |fields| - 1 ==>
              fields[i] + |TextAt(packed[..], fields[i])| < fields[|fields| - 1]
    ensures forall i :: 0 <= i < packed.Length && (i < start || i >= start + |old(TextAt(packed[..], start))|) ==>
              packed[i] == old(packed[i])
  {
    hide Cutting, Split, TextAt, Texts, Terminated;
    if max <= 0 {
      assert Texts(packed[..], []) == [];
      return [];
    }
    ghost var s := TextAt(packed[..], start);
    CutStarts(packed[..], start, max);
    ghost var end := start + |s|;
    ghost var cut: seq<string>, rest := [], s;
    fields := [start];
    InText(packed[..], fields, s, max, cut, rest, start);
    var p := start;
    while packed[p] != NUL
      invariant start <= p <= end < packed.Length && fields != [] && end == fields[|fields| - 1] + |rest|
      invariant Cutting(packed[..], fields, s, max, cut, rest, p) && fields[0] == start
      invariant forall i :: 0 <= i < packed.Length && (i < start || i >= end) ==> packed[i] == old(packed[i])
      decreases end - p
    {
      InText(packed[..], fields, s, max, cut, rest, p);
      if packed[p] == SEP {
        if |fields| == max {
          break;
        }
        CutHere(packed[..], fields, s, max, cut, rest, p);
        ghost var was, k := packed[..], p - fields[|fields| - 1];
        packed[p] := NUL;
        fields := fields + [p + 1];
        assert packed[..] == was[p := NUL];
        cut, rest := cut + [rest[..k]], rest[k + 1..];
      } else {
        PassBy(packed[..], fields, s, max, cut, rest, p);
      }
      p := p + 1;
    }
    InText(packed[..], fields, s, max, cut, rest, p);
    CutDone(packed[..], fields, s, max, cut, rest, p);
  }
}
