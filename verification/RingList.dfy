/** The doubly linked rings of rtservice.h and the suspend lists built from them. */
module RingList {

  import opened WaitList

  /** struct rt_thread as far as the wait lists use it: the links of tlist and the fields
      reached from it. The head of a suspend list is one too; only its links are used. */
  class Thread {
    var next: Thread
    var prev: Thread
    const id: Tid
    var priority: nat
    var error: Err
    var suspended: bool
    var eventSet: bv32
    var eventInfo: bv8

    /** rt_list_init on the links of a new thread. */
    constructor (id: Tid, priority: nat)
      ensures next == this && prev == this
      ensures this.id == id && this.priority == priority && error == Ok && !suspended
    {
      next, prev := this, this;
      this.id, this.priority := id, priority;
      error, suspended := Ok, false;
      eventSet, eventInfo := 0, 0;
    }
  }

  function Succ(i: nat, n: nat): nat
    requires i < n
  {
    if i + 1 == n then 0 else i + 1
  }

  /** next and prev run round this cycle of different nodes in opposite directions. */
  ghost predicate Ring(s: seq<Thread>)
    reads s`next, s`prev
  {
    && |s| > 0
    && Distinct(s)
    && forall i :: 0 <= i < |s| ==> s[i].next == s[Succ(i, |s|)] && s[Succ(i, |s|)].prev == s[i]
  }

  method InsertAfter(l: Thread, n: Thread, ghost s: seq<Thread>, ghost k: nat)
    requires Ring(s) && k < |s| && l == s[k] && n !in s
    modifies l`next, l.next`prev, n`next, n`prev
    ensures Ring(InsertAt(s, k + 1, n))
  {
    assert l.next == s[Succ(k, |s|)];
    l.next.prev := n;
    n.next := l.next;
    l.next := n;
    n.prev := l;
    InsertDistinct(s, k + 1, n);
    ghost var r := InsertAt(s, k + 1, n);
    forall i | 0 <= i < |r|
      ensures r[i].next == r[Succ(i, |r|)] && r[Succ(i, |r|)].prev == r[i]
    {
      if i < k { assert s[Succ(i, |s|)] == r[i + 1]; }
      else if i > k + 1 { assert r[i] == s[i - 1] && r[Succ(i, |r|)] == s[Succ(i - 1, |s|)]; }
      else if i == k + 1 { assert r[Succ(i, |r|)] == s[Succ(k, |s|)]; }
    }
  }

  method InsertBefore(l: Thread, n: Thread, ghost s: seq<Thread>, ghost k: nat)
    requires Ring(s) && 0 < k <= |s| && l == s[if k == |s| then 0 else k] && n !in s
    modifies l`prev, l.prev`next, n`next, n`prev
    ensures Ring(InsertAt(s, k, n))
  {
    assert l == s[Succ(k - 1, |s|)] && l.prev == s[k - 1];
    l.prev.next := n;
    n.prev := l.prev;
    l.prev := n;
    n.next := l;
    InsertDistinct(s, k, n);
    ghost var r := InsertAt(s, k, n);
    forall i | 0 <= i < |r|
      ensures r[i].next == r[Succ(i, |r|)] && r[Succ(i, |r|)].prev == r[i]
    {
      if i < k - 1 { assert s[Succ(i, |s|)] == r[i + 1]; }
      else if i > k { assert r[i] == s[i - 1] && r[Succ(i, |r|)] == s[Succ(i - 1, |s|)]; }
      else if i == k { assert r[Succ(i, |r|)] == s[Succ(k - 1, |s|)]; }
    }
  }

  /** The removed node is alone on its own ring; the others close up. */
  method Remove(n: Thread, ghost s: seq<Thread>, ghost k: nat)
    requires Ring(s) && k < |s| && n == s[k]
    modifies n.next`prev, n.prev`next, n`next, n`prev
    ensures Ring([n])
    ensures |s| > 1 ==> Ring(RemoveAt(s, k))
  {
    ghost var p: nat := if k == 0 then |s| - 1 else k - 1;
    assert Succ(p, |s|) == k && n.prev == s[p] && n.next == s[Succ(k, |s|)];
    n.next.prev := n.prev;
    n.prev.next := n.next;
    n.prev := n;
    n.next := n;
    if |s| > 1 {
      RemoveDistinct(s, k);
      ghost var r := RemoveAt(s, k);
      forall i | 0 <= i < |r|
        ensures r[i].next == r[Succ(i, |r|)] && r[Succ(i, |r|)].prev == r[i]
      {
        ghost var j := NeighbourAfterRemoval(s, k, i);
      }
    }
  }

  /** The node at place i once place k is gone was at place j, and so was its successor,
      unless that was the node removed. */
  lemma NeighbourAfterRemoval(s: seq<Thread>, k: nat, i: nat) returns (j: nat)
    requires k < |s| && i < |s| - 1
    ensures j < |s| && j != k && RemoveAt(s, k)[i] == s[j]
    ensures RemoveAt(s, k)[Succ(i, |s| - 1)] == s[if Succ(j, |s|) == k then Succ(k, |s|) else Succ(j, |s|)]
  {
    j := if i < k then i else i + 1;
  }
}
