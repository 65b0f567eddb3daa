/** The mutex object itself. */
module KernelMutex {

  import opened Wrappers
  import opened WaitList
  import opened RingList
  import opened WaitQueues
  import opened Mutexes

  class MutexObject {
    const flag: Flag
    const queue: WaitQueue
    var value: nat
    var owner: Thread?
    var hold: nat
    var original: nat

    ghost function Abs(prio: Priorities): Mutex
      reads this, queue
    {
      Mutex(value, if owner == null then None else Some(owner.id), hold, original, queue.Ids(), prio)
    }

    ghost function Owners(): set<Thread>
      reads this
    {
      if owner == null then {} else {owner}
    }

    /** The owner, if any, is not waiting, and priorities on record are those threads have. */
    ghost predicate OwnerApart(prio: Priorities)
      reads this, queue, Owners()`priority
    {
      && (value == 0 ==> owner != null)
      && (owner != null ==>
            && owner !in queue.ring && owner.id !in queue.Ids()
            && PriorityOf(prio, owner.id) == owner.priority)
    }

    ghost predicate Valid(prio: Priorities)
      reads this, queue, queue.ring`next, queue.ring`prev
      reads queue.waiters`suspended, queue.waiters`error, queue.waiters`priority, Owners()`priority
    {
      && hold < HOLDS
      && queue.Valid()
      && NoErrors(queue.waiters)
      && Agrees(prio, queue.waiters)
      && OwnerApart(prio)
    }

    /** A running thread, known by its identifier, as the caller of this mutex. */
    ghost predicate MayCall(t: Thread, prio: Priorities)
      reads this, queue, t`priority
    {
      && t !in queue.ring && t.id !in queue.Ids()
      && (owner != null && owner.id == t.id ==> owner == t)
      && PriorityOf(prio, t.id) == t.priority
    }

    /** rt_mutex_init. */
    constructor (flag: Flag, ghost prio: Priorities)
      ensures Valid(prio) && Abs(prio) == Init(prio) && this.flag == flag && fresh(queue) && fresh(queue.ring)
    {
      value, owner, hold, original := 1, null, 0, NO_PRIORITY;
      this.flag := flag;
      queue := new WaitQueue();
    }

    /** rt_mutex_take up to rt_schedule. */
    method Take(self: Thread, time: int, ghost prio: Priorities) returns (r: Outcome)
      requires Valid(prio) && MayCall(self, prio)
      modifies this, queue`waiters, queue`ring, queue.ring`next, queue.ring`prev
      modifies self`next, self`prev, self`suspended, self`error, Owners()`priority
      ensures var (m, o) := Mutexes.Take(old(Abs(prio)), self.id, time, flag);
              && Valid(m.prio) && Abs(m.prio) == m && r == o
              && self.priority == PriorityOf(m.prio, self.id)
      ensures r == Suspended ==> self in queue.waiters && self.suspended
      ensures r == Returned(Timeout) <==> self.error == Timeout
    {
      hide Ring, Distinct, AllSuspended, IdsOf, Suspend, UrgenciesOf, InsertAt;
      self.error := Ok;
      if owner == self {
        hold := (hold + 1) % HOLDS;
        r := Returned(Ok);
      } else if value > 0 {
        value := value - 1;
        owner := self;
        original := self.priority;
        hold := (hold + 1) % HOLDS;
        r := Returned(Ok);
      } else if time == 0 {
        self.error := Timeout;
        r := Returned(Timeout);
      } else {
        r := Wait(self, prio);
      }
    }

    /** The waiting branch of rt_mutex_take: lend the priority, then join the queue. */
    method Wait(self: Thread, ghost prio: Priorities) returns (r: Outcome)
      requires Valid(prio) && MayCall(self, prio) && value == 0 && owner != self && self.error == Ok
      modifies queue`waiters, queue`ring, queue.ring`next, queue.ring`prev
      modifies self`next, self`prev, self`suspended, Owners()`priority
      ensures var m := Mutexes.Take(old(Abs(prio)), self.id, -1, flag).0;
              && Valid(m.prio) && Abs(m.prio) == m
              && self.priority == PriorityOf(m.prio, self.id)
      ensures r == Suspended && self in queue.waiters && self.suspended
    {
      hide Ring, Distinct, AllSuspended, IdsOf, Suspend, UrgenciesOf, InsertAt;
      if self.priority < owner.priority {
        owner.priority := self.priority;
      }
      ghost var lent := Inherit(Abs(prio), self.id);
      queue.Suspend(self, flag, lent);
      r := Suspended;
    }

    /** rt_mutex_release. */
    method Release(self: Thread, ghost prio: Priorities) returns (r: Err)
      requires Valid(prio) && MayCall(self, prio)
      modifies this, queue`waiters, queue`ring, queue.ring`next, queue.ring`prev, queue.ring`suspended
      modifies self`error, self`priority
      ensures var (m, e) := Mutexes.Release(old(Abs(prio)), self.id);
              && Valid(m.prio) && Abs(m.prio) == m && r == e
              && self.priority == PriorityOf(m.prio, self.id)
      ensures r == Error ==> self.error == Error
    {
      hide Ring, Distinct, AllSuspended, IdsOf;
      if self != owner {
        self.error := Error;
        return Error;
      }
      hold := (hold + HOLDS - 1) % HOLDS;
      if hold == 0 {
        if original != owner.priority {
          owner.priority := original;
        }
        PassOn(prio[self.id := original]);
      }
      r := Ok;
    }

    /** The end of the last release: the head waiter, if there is one, becomes the owner. */
    method PassOn(ghost prio: Priorities)
      requires queue.Valid() && NoErrors(queue.waiters) && Agrees(prio, queue.waiters) && hold == 0
      modifies this, queue`waiters, queue`ring, queue.ring`next, queue.ring`prev, queue.ring`suspended
      ensures Valid(prio)
      ensures Abs(prio) == if old(queue.waiters) != [] then HandOver(old(Abs(prio))) else Vacate(old(Abs(prio)))
    {
      hide Ring, Distinct, AllSuspended, IdsOf;
      var empty := queue.IsEmpty();
      if !empty {
        owner := queue.ResumeHead();
        original := owner.priority;
        hold := (hold + 1) % HOLDS;
      } else {
        value := value + 1;
        owner := null;
        original := NO_PRIORITY;
      }
    }

    /** rt_thread_timeout on a thread that waits here. */
    method Expire(t: Thread, ghost prio: Priorities)
      requires Valid(prio) && t in queue.waiters
      modifies queue`waiters, queue`ring, queue.ring`next, queue.ring`prev, t`suspended, t`error
      ensures Valid(prio) && Abs(prio) == Mutexes.Expire(old(Abs(prio)), t.id)
      ensures !t.suspended && t.error == Timeout && t !in queue.ring
    {
      hide Ring, Distinct, AllSuspended, IdsOf, NoErrors, Unlink;
      queue.Expire(t);
    }
  }
}
