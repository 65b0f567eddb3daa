/** The event object itself. */
module KernelEvent {

  import opened WaitList
  import opened RingList
  import opened WaitQueues
  import opened EventSets

  /** What is on record about these threads is what their fields say. */
  ghost predicate Knows(info: map<Tid, Want>, ts: seq<Thread>)
    reads ts`eventSet, ts`eventInfo
  {
    forall i :: 0 <= i < |ts| ==> ts[i].id in info && info[ts[i].id] == Want(ts[i].eventSet, ts[i].eventInfo)
  }

  class EventObject {
    const flag: Flag
    const queue: WaitQueue
    var pending: bv32

    ghost function Abs(info: map<Tid, Want>): EventSet
      reads this, queue
    {
      EventSet(pending, queue.Ids(), info)
    }

    ghost predicate Valid(info: map<Tid, Want>)
      reads this, queue, queue.ring`next, queue.ring`prev
      reads queue.waiters`suspended, queue.waiters`error, queue.waiters`eventSet, queue.waiters`eventInfo
    {
      queue.Valid() && NoErrors(queue.waiters) && Knows(info, queue.waiters)
    }

    /** rt_event_init. */
    constructor (flag: Flag, ghost info: map<Tid, Want>)
      ensures Valid(info) && Abs(info) == Init(info) && this.flag == flag && fresh(queue) && fresh(queue.ring)
    {
      pending := 0;
      this.flag := flag;
      queue := new WaitQueue();
    }

    /** The test both calls make. */
    method Check(bits: bv32, option: bv8) returns (ok: bool)
      ensures ok == Satisfied(pending, Want(bits, option))
    {
      ok := false;
      if Has(option, AND_FLAG) {
        if pending & bits == bits {
          ok := true;
        }
      } else if Has(option, OR_FLAG) {
        if pending & bits != 0 {
          ok := true;
        }
      }
      BothWays(pending, bits);
    }

    /** rt_event_recv up to rt_schedule; blocked threads read the bits from event_set. */
    method Recv(self: Thread, bits: bv32, option: bv8, timeout: int, ghost info: map<Tid, Want>, ghost prio: Priorities)
        returns (error: Err, recved: bv32, blocked: bool)
      requires Valid(info) && self !in queue.ring && self.id !in queue.Ids()
      requires Agrees(prio, queue.waiters) && PriorityOf(prio, self.id) == self.priority
      modifies this`pending, queue`waiters, queue`ring, queue.ring`next, queue.ring`prev
      modifies self`next, self`prev, self`suspended, self`error, self`eventSet, self`eventInfo
      ensures var r := EventSets.Recv(old(Abs(info)), self.id, Want(bits, option), timeout, flag, prio);
              Valid(r.e.info) && Abs(r.e.info) == r.e && Received(r.e, error, recved, blocked) == r
      ensures blocked ==> self in queue.waiters && self.suspended
    {
      hide Ring, Distinct, AllSuspended, IdsOf, Suspend, UrgenciesOf, InsertAt, Satisfied, Has, Common, Without,
          Agrees, NoErrors, Knows;
      recved, blocked := 0, false;
      if bits == 0 {
        return Error, 0, false;
      }
      self.error := Ok;
      var ok := Check(bits, option);
      if ok {
        recved := Common(pending, bits);
        if Has(option, CLEAR_FLAG) {
          pending := Without(pending, bits);
        }
        error := Ok;
      } else if timeout == 0 {
        self.error := Timeout;
        error := Timeout;
      } else {
        self.eventSet := bits;
        self.eventInfo := option;
        ghost var ts, info' := queue.waiters, info[self.id := Want(bits, option)];
        KnowsOthers(info, ts, self.id, Want(bits, option));
        queue.Suspend(self, flag, prio);
        KnowsMembers(info', ts, queue.waiters, self);
        error, blocked := Ok, true;
      }
    }

    /** The part of rt_event_send that settles what a resumed waiter gets. */
    method Settle(thread: Thread)
      modifies this`pending, thread`eventSet
      ensures thread.eventSet == Taken(old(pending), Want(old(thread.eventSet), thread.eventInfo))
      ensures pending == Consume(old(pending), thread.eventSet, thread.eventInfo)
    {
      hide Has, Common, Without;
      if !Has(thread.eventInfo, AND_FLAG) {
        thread.eventSet := Common(thread.eventSet, pending);
      }
      if Has(thread.eventInfo, CLEAR_FLAG) {
        pending := Without(pending, thread.eventSet);
      }
    }

    /** rt_event_send resumes a waiter whose condition holds. */
    method Resume(thread: Thread, ghost i: nat, ghost info: map<Tid, Want>)
      requires Valid(info) && i < |queue.waiters| && queue.waiters[i] == thread
      modifies this`pending, queue`waiters, queue`ring, queue.ring`next, queue.ring`prev
      modifies thread`suspended, thread`eventSet
      ensures var e := Wake(old(Abs(info)), i); Valid(e.info) && Abs(e.info) == e
      ensures queue.waiters == RemoveAt(old(queue.waiters), i) && queue.Ids() == RemoveAt(old(queue.Ids()), i)
      ensures queue.ring[Succ(i, |queue.ring|)] == old(thread.next) && |queue.waiters| == |old(queue.waiters)| - 1
      ensures forall j :: 0 <= j < |queue.ring| ==> queue.ring[j] in old(queue.ring)
      ensures !thread.suspended && thread.error == Ok
    {
      hide Ring, Distinct, AllSuspended, IdsOf, Taken, Consume, NoErrors, RemoveAt;
      ghost var ts := queue.waiters;
      KnowsOne(info, ts, i);
      ErrorsLeave(ts, i);
      IndexIsUnique(queue.Ids(), i);
      LeaveCycle(queue.head, ts, i);
      KnowsLeave(info, ts, i);
      StepPast(queue.ring, i + 1);
      Settle(thread);
      queue.Unlink(thread, i);
      KnowsOthers(info, queue.waiters, thread.id, Want(thread.eventSet, thread.eventInfo));
    }

    /** One turn of the walk: the thread at place i is resumed or passed. */
    method Turn(thread: Thread, ghost i: nat, ghost e: EventSet)
        returns (resumed: bool, ghost j: nat, ghost e': EventSet)
      requires Valid(e.info) && Abs(e.info) == e && i < |queue.waiters| && queue.waiters[i] == thread
      modifies this`pending, queue`waiters, queue`ring, queue.ring`next, queue.ring`prev
      modifies thread`suspended, thread`eventSet
      ensures Valid(e'.info) && Abs(e'.info) == e' && Sweep(e', j) == Sweep(e, i)
      ensures j <= |queue.waiters| && queue.ring[Succ(j, |queue.ring|)] == old(thread.next)
      ensures |e'.waiters| - j < |e.waiters| - i && |e'.waiters| == |e.waiters| - if resumed then 1 else 0
      ensures forall k :: 0 <= k < |queue.ring| ==> queue.ring[k] in old(queue.ring)
    {
      hide Ring, Distinct, AllSuspended, IdsOf, Satisfied, NoErrors, Knows, Wake, RemoveAt;
      KnowsOne(e.info, queue.waiters, i);
      Neighbours(queue.ring, i + 1);
      resumed := Check(thread.eventSet, thread.eventInfo);
      if resumed {
        Resume(thread, i, e.info);
        j, e' := i, Wake(e, i);
      } else {
        j, e' := i + 1, e;
      }
    }

    /** rt_event_send: the walk along the wait list while it shrinks. */
    method Send(bits: bv32, ghost info: map<Tid, Want>) returns (error: Err, needSchedule: bool, ghost after: EventSet)
      requires Valid(info)
      modifies this`pending, queue`waiters, queue`ring
      modifies queue.ring`next, queue.ring`prev, queue.ring`suspended, queue.ring`eventSet
      ensures after == EventSets.Send(old(Abs(info)), bits) && Valid(after.info) && Abs(after.info) == after
      ensures error == if bits == 0 then Error else Ok
      ensures needSchedule <==> |after.waiters| < |old(queue.Ids())|
    {
      hide Ring, Distinct, AllSuspended, IdsOf, Satisfied, NoErrors, Knows, Wake, RemoveAt, Union;
      if bits == 0 {
        return Error, false, Abs(info);
      }
      needSchedule := false;
      pending := Union(pending, bits);
      after := Abs(info);
      ghost var i: nat := 0;
      ghost var first, cycle := after, queue.ring;
      Neighbours(queue.ring, 0);
      var n := queue.head.next;
      while n != queue.head
        invariant Valid(after.info) && Abs(after.info) == after && Sweep(after, i) == Sweep(first, 0)
        invariant i <= |queue.waiters| && n == queue.ring[Succ(i, |queue.ring|)]
        invariant forall j :: 0 <= j < |queue.ring| ==> queue.ring[j] in cycle
        invariant |after.waiters| <= |first.waiters|
        invariant needSchedule <==> |after.waiters| < |first.waiters|
        decreases |after.waiters| - i
      {
        var thread := n;
        assert thread == queue.ring[i + 1] == queue.waiters[i];
        n := n.next;
        var resumed;
        resumed, i, after := Turn(thread, i, after);
        needSchedule := needSchedule || resumed;
      }
      HeadEndsTheWalk(queue.ring, i);
      error := Ok;
    }

    /** rt_thread_timeout on a thread that waits here. */
    method Expire(t: Thread, ghost info: map<Tid, Want>)
      requires Valid(info) && t in queue.waiters
      modifies queue`waiters, queue`ring, queue.ring`next, queue.ring`prev, t`suspended, t`error
      ensures Valid(info) && Abs(info) == EventSets.Expire(old(Abs(info)), t.id)
      ensures !t.suspended && t.error == Timeout && t !in queue.ring
    {
      hide Ring, Distinct, AllSuspended, IdsOf, NoErrors, Unlink;
      queue.Expire(t);
    }

    /** rt_event_control with RT_IPC_CMD_RESET. */
    method Reset(ghost info: map<Tid, Want>)
      requires Valid(info)
      modifies this`pending, queue`waiters, queue`ring
      modifies queue.ring`next, queue.ring`prev, queue.ring`suspended, queue.ring`error
      ensures Valid(info) && Abs(info) == EventSets.Reset(old(Abs(info)))
      ensures forall i :: 0 <= i < |old(queue.waiters)| ==>
                !old(queue.waiters)[i].suspended && old(queue.waiters)[i].error == Error
    {
      queue.ResumeAll();
      pending := 0;
    }
  }

  /** The successor of a node that leaves is at its place afterwards. */
  lemma StepPast(s: seq<Thread>, k: nat)
    requires Ring(s) && 0 < k < |s|
    ensures |RemoveAt(s, k)| == |s| - 1 && RemoveAt(s, k)[Succ(k - 1, |s| - 1)] == s[k].next
    ensures forall j :: 0 <= j < |RemoveAt(s, k)| ==> RemoveAt(s, k)[j] in s
  {
    assert s[k].next == s[Succ(k, |s|)];
  }

  lemma HeadEndsTheWalk(s: seq<Thread>, i: nat)
    requires Ring(s) && i < |s| && s[Succ(i, |s|)] == s[0]
    ensures i + 1 == |s|
  {}

  lemma KnowsOne(info: map<Tid, Want>, ts: seq<Thread>, i: nat)
    requires Knows(info, ts) && i < |ts|
    ensures ts[i].id in info && info[ts[i].id] == Want(ts[i].eventSet, ts[i].eventInfo)
  {}

  lemma KnowsOthers(info: map<Tid, Want>, ts: seq<Thread>, t: Tid, w: Want)
    requires Knows(info, ts) && t !in IdsOf(ts)
    ensures Knows(info[t := w], ts)
  {
    forall i | 0 <= i < |ts|
      ensures ts[i].id != t
    {
      assert IdsOf(ts)[i] in IdsOf(ts);
    }
  }

  lemma KnowsMembers(info: map<Tid, Want>, ts: seq<Thread>, us: seq<Thread>, t: Thread)
    requires Knows(info, ts) && Knows(info, [t]) && forall i :: 0 <= i < |us| ==> us[i] == t || us[i] in ts
    ensures Knows(info, us)
  {
    assert [t][0] == t;
  }

  lemma KnowsLeave(info: map<Tid, Want>, ts: seq<Thread>, i: nat)
    requires Knows(info, ts) && i < |ts|
    ensures Knows(info, RemoveAt(ts, i))
    ensures forall j :: 0 <= j < |RemoveAt(ts, i)| ==> RemoveAt(ts, i)[j] in ts
  {}

  lemma BothWays(a: bv32, b: bv32)
    ensures a & b == b <==> Within(b, a)
    ensures a & b == Common(b, a)
  {}
}
