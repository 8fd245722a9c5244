/** Sequences, as the lists and arrays of the program are seen. */
module Sequences {
  ghost predicate Distinct<T>(s: seq<T>) {
    forall i, j :: 0 <= i < j < |s| ==> s[i] != s[j]
  }

  /** Array.prototype.indexOf, from an offset on. */
  function IndexOf<T(==)>(s: seq<T>, x: T, from: nat): (i: int)
    requires from <= |s|
    ensures -1 <= i < |s|
    ensures i >= 0 ==> i >= from && s[i] == x && forall j :: from <= j < i ==> s[j] != x
    ensures i < 0 ==> forall j :: from <= j < |s| ==> s[j] != x
    decreases |s| - from
  {
    if from == |s| then -1 else if s[from] == x then from else IndexOf(s, x, from + 1)
  }

  /** The one index with this element and none before it. */
  lemma {:induction false} FirstIs<T>(s: seq<T>, x: T, from: nat, i: nat)
    requires from <= i < |s| && s[i] == x && forall j :: from <= j < i ==> s[j] != x
    ensures IndexOf(s, x, from) == i
    decreases i - from
  {
    if from < i {
      FirstIs(s, x, from + 1, i);
    }
  }

  /** Distinct elements of a set are no more than it has. */
  lemma {:induction false} DistinctFits<T>(s: seq<T>, all: set<T>)
    requires Distinct(s) && forall x :: x in s ==> x in all
    ensures |s| <= |all|
    decreases |s|
  {
    if s != [] {
      assert forall i :: 1 <= i < |s| ==> s[i] != s[0];
      assert forall x :: x in s[1..] ==> x in s && x != s[0];
      DistinctFits(s[1..], all - {s[0]});
    }
  }

  /** A sequence with element k taken out. */
  function LeftOut<T>(s: seq<T>, k: nat): (r: seq<T>)
    requires k < |s|
    ensures |r| == |s| - 1 && forall i :: 0 <= i < |r| ==> r[i] == s[if i < k then i else i + 1]
  {
    s[..k] + s[k + 1..]
  }

  lemma LeftOutHolds<T>(s: seq<T>, k: nat)
    requires k < |s| && Distinct(s)
    ensures Distinct(LeftOut(s, k))
    ensures forall x :: x in LeftOut(s, k) <==> x in s && x != s[k]
  {
    var r := LeftOut(s, k);
    assert forall i :: 0 <= i < |s| && i != k ==> r[if i < k then i else i - 1] == s[i];
  }

  /** What a next pointer has to hold in a linked list; -1 stands for the pointer to the head. */
  function Following<T>(list: seq<T>, i: int, end: T): T
    requires -1 <= i < |list|
  {
    if i + 1 < |list| then list[i + 1] else end
  }

  /** A list with an element put in front. */
  lemma Pushed<T>(list: seq<T>, x: T, end: T) returns (more: seq<T>)
    ensures |more| == |list| + 1 && forall y :: y in more <==> y == x || y in list
    ensures forall i :: 0 <= i < |more| ==>
              && more[i] == (if i == 0 then x else list[i - 1])
              && Following(more, i, end) == Following(list, i - 1, end)
  {
    more := [x] + list;
  }
}
