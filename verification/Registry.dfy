/** The linked list of records, by id, that emscripten/wschan.c and emscripten/httpx.c each keep. */
module Registries {
  import opened Sequences

  class Record<T> {
    const id: nat
    var data: T
    var next: Record?<T>

    constructor (id: nat, data: T)
      ensures this.id == id && this.data == data && next == null
    {
      this.id, this.data, next := id, data, null;
    }
  }

  predicate OncePerId<T(!new)>(list: seq<Record<T>>) {
    forall i, j :: 0 <= i < j < |list| ==> list[i] != list[j] && list[i].id != list[j].id
  }

  class Registry<T(!new)> {
    var head: Record?<T>

    /** The records in list order. */
    ghost var list: seq<Record<T>>

    constructor ()
      ensures Linked() && list == []
    {
      head, list := null, [];
    }

    ghost predicate Linked()
      reads `head, `list, list`next
    {
      && head == Following(list, -1, null)
      && (forall i :: 0 <= i < |list| ==> list[i].next == Following(list, i, null))
      && OncePerId(list)
    }

    ghost function Ids(): set<nat>
      reads `list
    {
      set r | r in list :: r.id
    }

    lemma HeadTells()
      requires Linked()
      ensures head == null <==> Ids() == {}
    {
      if list != [] {
        assert list[0].id in Ids();
      }
    }

    lemma OnlyOne(r: Record<T>, s: Record<T>)
      requires Linked() && r in list && s in list && r.id == s.id
      ensures r == s
    {}

    /** SockFind, ReqFind */
    method Find(id: nat) returns (found: Record?<T>)
      requires Linked()
      ensures found != null <==> id in Ids()
      ensures found != null ==> found in list && found.id == id
    {
      found := head;
      ghost var i := 0;
      while found != null
        invariant 0 <= i <= |list|
        invariant found == if i < |list| then list[i] else null
        invariant forall j :: 0 <= j < i ==> list[j].id != id
        decreases |list| - i
      {
        if found.id == id {
          return;
        }
        found := found.next;
        i := i + 1;
      }
    }

    /** A new record goes to the front. */
    method Push(id: nat, data: T) returns (r: Record<T>)
      requires Linked() && id !in Ids()
      modifies `head, `list
      ensures Linked() && Ids() == old(Ids()) + {id}
      ensures fresh(r) && r.id == id && r.data == data
      ensures forall s :: s in list <==> s == r || s in old(list)
    {
      r := new Record(id, data);
      ghost var more: seq<Record<T>> := StillOncePerId(r);
      r.next := head;
      head := r;
      list := more;
    }

    lemma StillOncePerId(r: Record<T>) returns (more: seq<Record<T>>)
      requires OncePerId(list) && forall s :: s in list ==> s != r && s.id != r.id
      ensures OncePerId(more) && |more| == |list| + 1 && forall s :: s in more <==> s == r || s in list
      ensures forall i :: 0 <= i < |more| ==>
                && more[i] == (if i == 0 then r else list[i - 1])
                && Following(more, i, null) == Following(list, i - 1, null)
    {
      more := Pushed(list, r, null);
    }

    /** SockForget, ReqForget */
    method Forget(id: nat)
      requires Linked()
      modifies `head, `list, list`next
      ensures Linked() && Ids() == old(Ids()) - {id}
      ensures forall r :: r in list <==> r in old(list) && r.id != id
    {
      if head == null {
        return;
      }
      if head.id == id {
        head := head.next;
        LeaveOut(0);
      } else {
        var prev;
        ghost var k;
        prev, k := Predecessor(id);
        if prev.next == null {
          assert id !in Ids();
          return;
        }
        prev.next := prev.next.next;
        LeaveOut(k);
      }
    }

    /** Every pointer is as it should be, but record k is bypassed. */
    ghost predicate Bypassed(k: nat)
      reads `head, `list, list`next
    {
      && k < |list| && OncePerId(list)
      && head == (if k == 0 then Following(list, 0, null) else list[0])
      && forall i :: 0 <= i < |list| && i != k ==>
           list[i].next == if i + 1 == k then Following(list, k, null) else Following(list, i, null)
    }

    ghost method LeaveOut(k: nat)
      requires Bypassed(k)
      modifies `list
      ensures Linked() && Ids() == old(Ids()) - {old(list)[k].id}
      ensures forall r :: r in list <==> r in old(list) && r.id != old(list)[k].id
    {
      hide OncePerId, Following;
      list := Unlinked(k);
    }

    /** A list with record k bypassed is linked once the ghost list leaves it out. */
    lemma Unlinked(k: nat) returns (rest: seq<Record<T>>)
      requires Bypassed(k)
      ensures OncePerId(rest) && head == Following(rest, -1, null)
      ensures forall r :: r in rest <==> r in list && r.id != list[k].id
      ensures forall i :: 0 <= i < |rest| ==> rest[i].next == Following(rest, i, null)
    {
      rest := LeftOut(list, k);
      assert Distinct(list);
      LeftOutHolds(list, k);
    }

    /** The walk to the record before, for an id that the head does not have. */
    method Predecessor(id: nat) returns (prev: Record<T>, ghost k: nat)
      requires Linked() && head != null && head.id != id
      ensures 0 < k <= |list| && prev == list[k - 1] && forall j :: 0 <= j < k ==> list[j].id != id
      ensures prev.next == null || prev.next.id == id
    {
      hide OncePerId;
      prev := head;
      k := 1;
      while prev.next != null && prev.next.id != id
        invariant 0 < k <= |list| && prev == list[k - 1]
        invariant forall j :: 0 <= j < k ==> list[j].id != id
        decreases |list| - k
      {
        prev := prev.next;
        k := k + 1;
      }
    }
  }
}
