/** struct rt_ipc_object: the ring of threads suspended on a kernel object. */
module WaitQueues {

  import opened WaitList
  import opened RingList

  function IdsOf(ts: seq<Thread>): (r: seq<Tid>)
    ensures |r| == |ts| && forall i :: 0 <= i < |ts| ==> r[i] == ts[i].id
  {
    seq(|ts|, i requires 0 <= i < |ts| => ts[i].id)
  }

  function UrgenciesOf(ts: seq<Thread>): (r: seq<nat>)
    reads ts`priority
    ensures |r| == |ts| && forall i :: 0 <= i < |ts| ==> r[i] == ts[i].priority
  {
    if ts == [] then [] else UrgenciesOf(ts[..|ts| - 1]) + [ts[|ts| - 1].priority]
  }

  ghost predicate AllSuspended(ts: seq<Thread>)
    reads ts`suspended
  {
    forall i :: 0 <= i < |ts| ==> ts[i].suspended
  }

  ghost predicate NoErrors(ts: seq<Thread>)
    reads ts`error
  {
    forall i :: 0 <= i < |ts| ==> ts[i].error == Ok
  }

  /** The priorities on record are those the threads have. */
  ghost predicate Agrees(prio: Priorities, ts: seq<Thread>)
    reads ts`priority
  {
    forall i :: 0 <= i < |ts| ==> PriorityOf(prio, ts[i].id) == ts[i].priority
  }

  class WaitQueue {
    const head: Thread
    ghost var waiters: seq<Thread>
    ghost var ring: seq<Thread>

    ghost function Ids(): seq<Tid>
      reads this
    {
      IdsOf(waiters)
    }

    ghost predicate Valid()
      reads this, ring`next, ring`prev, waiters`suspended
    {
      && ring == [head] + waiters
      && Ring(ring)
      && Distinct(Ids())
      && AllSuspended(waiters)
    }

    /** rt_ipc_object_init. */
    constructor ()
      ensures Valid() && waiters == [] && ring == [head] && NoErrors(waiters) && fresh(head)
    {
      head := new Thread(0, 0);
      waiters := [];
      ring := [head];
    }

    method IsEmpty() returns (b: bool)
      requires Valid()
      ensures b == (waiters == [])
    {
      b := head.next == head;
      assert ring[Succ(0, |ring|)] == head.next;
    }

    /** The first waiter less urgent than t, or the head of the list. */
    method Place(t: Thread) returns (n: Thread, ghost i: nat)
      requires Valid()
      ensures var place := Position(UrgenciesOf(waiters), t.priority, Prio);
              i == place <= |waiters| && n == ring[Succ(place, |ring|)]
    {
      n := head.next;
      i := 0;
      assert n == ring[Succ(0, |ring|)];
      while n != head && t.priority >= n.priority
        invariant i <= |waiters|
        invariant n == ring[Succ(i, |ring|)]
        invariant forall j :: 0 <= j < i ==> waiters[j].priority <= t.priority
        decreases |waiters| - i
      {
        assert n == ring[i + 1] == waiters[i];
        n := n.next;
        i := i + 1;
      }
      if i < |waiters| {
        assert n == ring[i + 1] == waiters[i];
      }
      IsPosition(UrgenciesOf(waiters), t.priority, Prio, i);
    }

    /** rt_ipc_list_suspend. */
    method Suspend(t: Thread, flag: Flag, ghost prio: Priorities)
      requires Valid() && t !in ring && t.id !in Ids()
      requires Agrees(prio, waiters) && PriorityOf(prio, t.id) == t.priority
      modifies this`waiters, this`ring, ring`next, ring`prev, t`next, t`prev, t`suspended
      ensures Valid() && t.suspended
      ensures Ids() == WaitList.Suspend(old(Ids()), prio, t.id, flag)
      ensures t in waiters && Agrees(prio, waiters)
      ensures old(NoErrors(waiters)) && t.error == Ok ==> NoErrors(waiters)
      ensures forall i :: 0 <= i < |ring| ==> ring[i] == t || ring[i] in old(ring)
      ensures forall i :: 0 <= i < |waiters| ==> waiters[i] == t || waiters[i] in old(waiters)
      ensures forall i :: 0 <= i < |Ids()| ==> Ids()[i] == t.id || Ids()[i] in old(Ids())
    {
      hide Ring, Position, Distinct, IdsOf, InsertAt, UrgenciesOf, NoErrors, Agrees;
      ghost var i := |waiters|;
      var n := head;
      if flag == Prio {
        n, i := Place(t);
      }
      assert i == Position(UrgenciesOf(waiters), t.priority, flag);
      Neighbours(ring, i);
      assert n == ring[Succ(i, |ring|)];
      JoinCycle(head, waiters, i, t);
      UrgenciesAgree(prio, waiters);
      assert InsertAt(Ids(), i, t.id) == WaitList.Suspend(Ids(), prio, t.id, flag);
      t.suspended := true;
      InsertBefore(n, t, ring, i + 1);
      SuspendedJoin(waiters, i, t);
      Joined(waiters, i, t, prio);
      Joined(ring, i + 1, t, prio);
      JoinedIds(Ids(), i, t.id);
      waiters, ring := InsertAt(waiters, i, t), InsertAt(ring, i + 1, t);
    }

    /** What rt_thread_resume and rt_thread_timeout do to the list a thread waits in. */
    method Unlink(t: Thread, ghost i: nat)
      requires Valid() && i < |waiters| && waiters[i] == t
      modifies this`waiters, this`ring, ring`next, ring`prev, t`suspended
      ensures Valid() && t !in ring && t.id !in Ids() && !t.suspended && Ring([t])
      ensures waiters == RemoveAt(old(waiters), i) && Ids() == WaitList.Unlink(old(Ids()), t.id)
    {
      hide Ring, RemoveAt, Distinct, IdsOf;
      Neighbours(ring, i);
      Neighbours(ring, i + 1);
      LeaveCycle(head, waiters, i);
      IndexIsUnique(Ids(), i);
      Remove(t, ring, i + 1);
      SuspendedLeave(waiters, i);
      waiters, ring := RemoveAt(waiters, i), RemoveAt(ring, i + 1);
      t.suspended := false;
    }

    /** rt_ipc_list_resume. */
    method ResumeHead() returns (t: Thread)
      requires Valid() && waiters != []
      modifies this`waiters, this`ring, ring`next, ring`prev, ring`suspended
      ensures Valid() && t == old(waiters[0]) && waiters == old(waiters[1..]) && Ids() == old(Ids())[1..]
      ensures !t.suspended && t !in ring && t.id !in Ids()
      ensures forall i :: 0 <= i < |ring| ==> ring[i] in old(ring)
      ensures forall i :: 0 <= i < |waiters| ==> waiters[i] in old(waiters)
    {
      Neighbours(ring, 0);
      assert ring[1] == waiters[0];
      hide Ring;
      t := head.next;
      Unlink(t, 0);
    }

    /** rt_thread_timeout on a waiter. */
    method Expire(t: Thread)
      requires Valid() && NoErrors(waiters) && t in waiters
      modifies this`waiters, this`ring, ring`next, ring`prev, t`suspended, t`error
      ensures Valid() && NoErrors(waiters) && Ids() == WaitList.Unlink(old(Ids()), t.id)
      ensures forall i :: 0 <= i < |ring| ==> ring[i] in old(ring)
      ensures forall i :: 0 <= i < |waiters| ==> waiters[i] in old(waiters)
      ensures !t.suspended && t.error == Timeout && t !in ring
    {
      hide Ring, Distinct, AllSuspended, IdsOf, WaitList.Unlink;
      ghost var i: nat :| i < |waiters| && waiters[i] == t;
      ErrorsLeave(waiters, i);
      Unlink(t, i);
      t.error := Timeout;
    }

    /** Resume the first waiter, if there is one. */
    method ResumeAny() returns (resumed: bool)
      requires Valid() && NoErrors(waiters)
      modifies this`waiters, this`ring, ring`next, ring`prev, ring`suspended
      ensures Valid() && NoErrors(waiters) && resumed == (old(waiters) != [])
      ensures Ids() == if resumed then old(Ids())[1..] else old(Ids())
      ensures forall i :: 0 <= i < |ring| ==> ring[i] in old(ring)
      ensures forall i :: 0 <= i < |waiters| ==> waiters[i] in old(waiters)
      ensures resumed ==> var t := old(waiters[0]); !t.suspended && t.error == Ok && t !in ring
    {
      hide Ring, Distinct, AllSuspended, IdsOf;
      var empty := IsEmpty();
      if !empty {
        var t := ResumeHead();
      }
      resumed := !empty;
    }

    /** One turn of rt_ipc_list_resume_all: the first waiter leaves with an error. */
    method FailHead() returns (t: Thread)
      requires Valid() && waiters != []
      modifies this`waiters, this`ring, ring`next, ring`prev, ring`suspended, ring`error
      ensures Valid() && t == old(waiters[0]) && waiters == old(waiters[1..]) && Ids() == old(Ids())[1..]
      ensures !t.suspended && t.error == Error && t !in ring
      ensures forall i :: 0 <= i < |ring| ==> ring[i] in old(ring)
    {
      hide Ring, IdsOf, Distinct, AllSuspended;
      Neighbours(ring, 0);
      assert head.next == ring[1] == waiters[0];
      head.next.error := Error;
      t := ResumeHead();
    }

    /** rt_ipc_list_resume_all. */
    method ResumeAll()
      requires Valid()
      modifies this`waiters, this`ring, ring`next, ring`prev, ring`suspended, ring`error
      ensures Valid() && waiters == [] && ring == [head] && NoErrors(waiters)
      ensures forall i :: 0 <= i < |old(waiters)| ==> !old(waiters)[i].suspended && old(waiters)[i].error == Error
    {
      hide Ring, IdsOf, Distinct, AllSuspended;
      ghost var all, cycle := waiters, ring;
      HeadIsNoWaiter(head, waiters);
      var empty := IsEmpty();
      while !empty
        invariant Valid() && empty == (waiters == [])
        invariant forall j :: 0 <= j < |ring| ==> ring[j] in cycle
        invariant forall j :: 0 <= j < |all| ==> all[j] in waiters || (!all[j].suspended && all[j].error == Error)
        decreases |waiters|
      {
        var t := FailHead();
        empty := IsEmpty();
      }
    }
  }

  lemma {:induction false} IsPosition(ps: seq<nat>, p: nat, flag: Flag, i: nat)
    requires i <= |ps|
    requires flag == Fifo ==> i == |ps|
    requires flag == Prio ==> (forall j :: 0 <= j < i ==> ps[j] <= p) && (i < |ps| ==> p < ps[i])
    ensures Position(ps, p, flag) == i
  {
    if flag == Prio && i > 0 {
      IsPosition(ps[1..], p, flag, i - 1);
    }
  }

  lemma SuspendedJoin(ts: seq<Thread>, i: nat, t: Thread)
    requires i <= |ts| && AllSuspended(ts) && t.suspended
    ensures AllSuspended(InsertAt(ts, i, t))
  {}

  lemma Joined(ts: seq<Thread>, i: nat, t: Thread, prio: Priorities)
    requires i <= |ts|
    ensures t in InsertAt(ts, i, t)
    ensures forall j :: 0 <= j < |InsertAt(ts, i, t)| ==> InsertAt(ts, i, t)[j] == t || InsertAt(ts, i, t)[j] in ts
    ensures NoErrors(ts) && t.error == Ok ==> NoErrors(InsertAt(ts, i, t))
    ensures Agrees(prio, ts) && PriorityOf(prio, t.id) == t.priority ==> Agrees(prio, InsertAt(ts, i, t))
  {
    assert InsertAt(ts, i, t)[i] == t;
  }

  lemma JoinedIds(ids: seq<Tid>, i: nat, t: Tid)
    requires i <= |ids|
    ensures forall j :: 0 <= j < |InsertAt(ids, i, t)| ==> InsertAt(ids, i, t)[j] == t || InsertAt(ids, i, t)[j] in ids
  {}

  lemma SuspendedLeave(ts: seq<Thread>, i: nat)
    requires i < |ts| && AllSuspended(ts)
    ensures AllSuspended(RemoveAt(ts, i))
  {}

  lemma ErrorsLeave(ts: seq<Thread>, i: nat)
    requires i < |ts| && NoErrors(ts)
    ensures NoErrors(RemoveAt(ts, i)) && ts[i].error == Ok
  {}

  lemma IdsDiffer(ts: seq<Thread>)
    requires Distinct(IdsOf(ts))
    ensures Distinct(ts)
  {
    forall a, b | 0 <= a < b < |ts|
      ensures ts[a] != ts[b]
    {
      assert IdsOf(ts)[a] != IdsOf(ts)[b];
    }
  }

  lemma UrgenciesAgree(prio: Priorities, ts: seq<Thread>)
    requires Agrees(prio, ts)
    ensures UrgenciesOf(ts) == PrioritiesOf(prio, IdsOf(ts))
  {}

  lemma {:induction false} IndexIsUnique(ids: seq<Tid>, i: nat)
    requires i < |ids| && Distinct(ids)
    ensures IndexIn(ids, ids[i]) == i
  {
    if i > 0 {
      assert ids[0] != ids[i] && ids[1..][i - 1] == ids[i];
      IndexIsUnique(ids[1..], i - 1);
    }
  }

  lemma Neighbours(s: seq<Thread>, i: nat)
    requires Ring(s) && i < |s|
    ensures s[i].next == s[Succ(i, |s|)] && s[Succ(i, |s|)].prev == s[i]
  {}

  lemma HeadIsNoWaiter(head: Thread, ts: seq<Thread>)
    requires Ring([head] + ts)
    ensures forall i :: 0 <= i < |ts| ==> ts[i] != head
  {
    var s := [head] + ts;
    forall i | 0 <= i < |ts|
      ensures ts[i] != head
    {
      assert s[i + 1] == ts[i] && s[0] == head;
    }
  }

  /** The cycle and the identifiers once t has joined at place i. */
  lemma JoinCycle(head: Thread, ts: seq<Thread>, i: nat, t: Thread)
    requires i <= |ts| && Distinct(IdsOf(ts)) && t.id !in IdsOf(ts)
    ensures InsertAt([head] + ts, i + 1, t) == [head] + InsertAt(ts, i, t)
    ensures |InsertAt(ts, i, t)| == |ts| + 1
    ensures IdsOf(InsertAt(ts, i, t)) == InsertAt(IdsOf(ts), i, t.id)
    ensures Distinct(IdsOf(InsertAt(ts, i, t)))
  {
    InsertDistinct(IdsOf(ts), i, t.id);
    assert IdsOf(InsertAt(ts, i, t)) == InsertAt(IdsOf(ts), i, t.id);
  }

  /** The cycle and the identifiers once the thread at place i has left. */
  lemma LeaveCycle(head: Thread, ts: seq<Thread>, i: nat)
    requires i < |ts| && Ring([head] + ts) && Distinct(IdsOf(ts))
    ensures RemoveAt([head] + ts, i + 1) == [head] + RemoveAt(ts, i)
    ensures IdsOf(RemoveAt(ts, i)) == RemoveAt(IdsOf(ts), i)
    ensures Distinct(IdsOf(RemoveAt(ts, i))) && ts[i].id !in IdsOf(RemoveAt(ts, i))
    ensures ts[i] !in [head] + RemoveAt(ts, i)
    ensures forall j :: 0 <= j < |RemoveAt(ts, i)| ==> RemoveAt(ts, i)[j] != ts[i]
  {
    assert ([head] + ts)[i + 1] == ts[i] && ([head] + ts)[0] == head;
    IdsDiffer(ts);
    RemoveDistinct(ts, i);
    RemoveDistinct(IdsOf(ts), i);
    assert IdsOf(RemoveAt(ts, i)) == RemoveAt(IdsOf(ts), i);
  }
}
