/** The mailbox object itself. */
module KernelMailbox {

  import opened WaitList
  import opened RingList
  import opened WaitQueues
  import opened Mailboxes

  ghost predicate NoneIn(s: seq<Thread>, r: seq<Thread>) {
    forall i :: 0 <= i < |s| ==> s[i] !in r
  }

  /** The two lists have no node in common. */
  ghost predicate NoneShared(a: WaitQueue, b: WaitQueue)
    reads a, b
  {
    && NoneIn(a.ring, b.ring) && NoneIn(b.ring, a.ring)
    && NoneIn(a.waiters, b.ring) && NoneIn(b.waiters, a.ring)
  }

  predicate IsResumed(t: Thread)
    reads t`suspended, t`error
  {
    !t.suspended && t.error == Ok
  }

  lemma PostInParts(m: Mailbox, v: Mail)
    requires m.inOffset < m.Size()
    ensures Post(m, v) == Mailbox(m.pool[m.inOffset := v], m.entry + 1, Advance(m.inOffset, m.Size()), m.outOffset,
                                  Tail(m.receivers), m.senders)
  {}

  lemma FetchInParts(m: Mailbox)
    requires m.entry > 0
    ensures Fetch(m) == Mailbox(m.pool, m.entry - 1, m.inOffset, Advance(m.outOffset, m.Size()), m.receivers,
                                Tail(m.senders))
  {}

  class MailboxObject {
    const flag: Flag
    const receivers: WaitQueue
    const senders: WaitQueue
    const pool: array<Mail>
    const size: nat
    var entry: nat
    var inOffset: nat
    var outOffset: nat

    ghost function Abs(): Mailbox
      requires size <= pool.Length
      reads this, pool, receivers, senders
    {
      Mailbox(pool[..size], entry, inOffset, outOffset, receivers.Ids(), senders.Ids())
    }

    /** The two lists are sound and apart. */
    ghost predicate Lists()
      reads receivers, senders
      reads receivers.ring`next, receivers.ring`prev, receivers.waiters`suspended, receivers.waiters`error
      reads senders.ring`next, senders.ring`prev, senders.waiters`suspended, senders.waiters`error
    {
      && receivers != senders
      && receivers.Valid() && NoErrors(receivers.waiters)
      && senders.Valid() && NoErrors(senders.waiters)
      && NoneShared(receivers, senders)
    }

    ghost predicate Valid()
      reads this, pool, receivers, senders
      reads receivers.ring`next, receivers.ring`prev, receivers.waiters`suspended, receivers.waiters`error
      reads senders.ring`next, senders.ring`prev, senders.waiters`suspended, senders.waiters`error
    {
      && size <= pool.Length && size < 0x1_0000
      && Abs().Valid()
      && Lists()
    }

    /** A running thread waits in neither list. */
    ghost predicate MayCall(t: Thread)
      reads this, receivers, senders
    {
      && t !in receivers.ring && t.id !in receivers.Ids()
      && t !in senders.ring && t.id !in senders.Ids()
    }

    /** rt_mb_init on a buffer of size mails; the size is stored in 16 bits. */
    constructor (pool: array<Mail>, size: nat, flag: Flag)
      requires size <= pool.Length
      ensures Valid() && this.size == size % 0x1_0000 && Abs() == Init(pool[..size % 0x1_0000])
      ensures this.pool == pool && this.flag == flag
      ensures fresh(receivers) && fresh(receivers.ring) && fresh(senders) && fresh(senders.ring)
    {
      hide Ring, Distinct, AllSuspended, IdsOf, NoErrors;
      this.pool, this.size, this.flag := pool, size % 0x1_0000, flag;
      entry, inOffset, outOffset := 0, 0, 0;
      receivers := new WaitQueue();
      senders := new WaitQueue();
    }

    /** One pass of rt_mb_send_wait, up to rt_schedule or return. */
    method TrySend(self: Thread, value: Mail, left: int, ghost prio: Priorities) returns (blocked: bool, error: Err)
      requires Valid() && MayCall(self)
      requires Agrees(prio, senders.waiters) && PriorityOf(prio, self.id) == self.priority
      modifies this, pool, receivers`waiters, receivers`ring, senders`waiters, senders`ring
      modifies receivers.ring`next, receivers.ring`prev, receivers.ring`suspended
      modifies senders.ring`next, senders.ring`prev, self`next, self`prev, self`suspended, self`error
      ensures Valid()
      ensures var (m, o) := Mailboxes.TrySend(old(Abs()), self.id, value, left, flag, prio);
              && Abs() == m && blocked == o.Blocked?
              && (!blocked ==> error == if o.Refused? then Full else Ok)
      ensures blocked ==> self in senders.waiters && self.suspended
      ensures !blocked && error == Ok && old(receivers.waiters) != [] ==> IsResumed(old(receivers.waiters[0]))
    {
      hide Ring, Distinct, AllSuspended, IdsOf, Suspend, UrgenciesOf, Agrees, NoErrors;
      blocked, error := false, Ok;
      if entry == size {
        self.error := Ok;
        if left == 0 {
          return false, Full;
        }
        senders.Suspend(self, flag, prio);
        blocked := true;
      } else {
        Deposit(value);
      }
    }

    /** A mail goes into the ring, and a receiver is resumed. */
    method Deposit(value: Mail)
      requires Valid() && entry < size
      modifies this, pool, receivers`waiters, receivers`ring
      modifies receivers.ring`next, receivers.ring`prev, receivers.ring`suspended
      ensures Valid() && Abs() == Post(old(Abs()), value)
      ensures old(receivers.waiters) != [] ==> IsResumed(old(receivers.waiters[0]))
    {
      hide Lists, Post, Advance, WaitQueue.Ids, IsResumed;
      PostAppends(Abs(), value);
      PostInParts(Abs(), value);
      Store(value);
      ResumeReceiver();
    }

    method ResumeReceiver()
      requires Lists()
      modifies receivers`waiters, receivers`ring
      modifies receivers.ring`next, receivers.ring`prev, receivers.ring`suspended
      ensures Lists() && receivers.Ids() == Tail(old(receivers.Ids())) && senders.Ids() == old(senders.Ids())
      ensures old(receivers.waiters) != [] ==> IsResumed(old(receivers.waiters[0]))
    {
      hide Ring, Distinct, AllSuspended, IdsOf, NoErrors;
      var resumed := receivers.ResumeAny();
    }

    method ResumeSender()
      requires Lists()
      modifies senders`waiters, senders`ring
      modifies senders.ring`next, senders.ring`prev, senders.ring`suspended
      ensures Lists() && senders.Ids() == Tail(old(senders.Ids())) && receivers.Ids() == old(receivers.Ids())
      ensures old(senders.waiters) != [] ==> IsResumed(old(senders.waiters[0]))
    {
      hide Ring, Distinct, AllSuspended, IdsOf, NoErrors;
      var resumed := senders.ResumeAny();
    }

    /** The mail goes into the ring. */
    method Store(value: Mail)
      requires inOffset < size <= pool.Length
      modifies this`entry, this`inOffset, pool
      ensures pool[..size] == old(pool[..size])[old(inOffset) := value] && pool[size..] == old(pool[size..])
      ensures inOffset == Advance(old(inOffset), size) && entry == old(entry) + 1
    {
      pool[inOffset] := value;
      inOffset := inOffset + 1;
      if inOffset >= size {
        inOffset := 0;
      }
      entry := entry + 1;
    }

    /** One pass of rt_mb_recv, up to rt_schedule or return. */
    method TryRecv(self: Thread, left: int, ghost prio: Priorities) returns (blocked: bool, error: Err, value: Mail)
      requires Valid() && MayCall(self)
      requires Agrees(prio, receivers.waiters) && PriorityOf(prio, self.id) == self.priority
      modifies this, receivers`waiters, receivers`ring, senders`waiters, senders`ring
      modifies senders.ring`next, senders.ring`prev, senders.ring`suspended
      modifies receivers.ring`next, receivers.ring`prev, self`next, self`prev, self`suspended, self`error
      ensures Valid()
      ensures var (m, o) := Mailboxes.TryRecv(old(Abs()), self.id, left, flag, prio);
              && Abs() == m && blocked == o.Blocked?
              && (!blocked ==> error == if o.Refused? then Timeout else Ok)
      ensures !blocked && error == Ok ==> old(Abs().Contents()) == [value] + Abs().Contents()
      ensures blocked ==> self in receivers.waiters && self.suspended
      ensures !blocked && error == Ok && old(senders.waiters) != [] ==> IsResumed(old(senders.waiters[0]))
    {
      hide Ring, Distinct, AllSuspended, IdsOf, Suspend, UrgenciesOf, Agrees, NoErrors;
      blocked, error, value := false, Ok, 0;
      if entry == 0 {
        self.error := Ok;
        if left == 0 {
          self.error := Timeout;
          return false, Timeout, 0;
        }
        receivers.Suspend(self, flag, prio);
        blocked := true;
      } else {
        value := Withdraw();
      }
    }

    /** The oldest mail comes out of the ring, and a sender is resumed. */
    method Withdraw() returns (value: Mail)
      requires Valid() && entry > 0
      modifies this, senders`waiters, senders`ring
      modifies senders.ring`next, senders.ring`prev, senders.ring`suspended
      ensures Valid() && Abs() == Fetch(old(Abs()))
      ensures old(Abs().Contents()) == [value] + Abs().Contents()
      ensures old(senders.waiters) != [] ==> IsResumed(old(senders.waiters[0]))
    {
      hide Lists, Fetch, Advance, WaitQueue.Ids, IsResumed;
      FetchTakesOldest(Abs());
      FetchInParts(Abs());
      value := Retrieve();
      ResumeSender();
    }

    /** The oldest mail comes out of the ring. */
    method Retrieve() returns (value: Mail)
      requires outOffset < size <= pool.Length && entry > 0
      modifies this`entry, this`outOffset
      ensures value == pool[old(outOffset)]
      ensures outOffset == Advance(old(outOffset), size) && entry == old(entry) - 1
    {
      value := pool[outOffset];
      outOffset := outOffset + 1;
      if outOffset >= size {
        outOffset := 0;
      }
      entry := entry - 1;
    }

    /** rt_thread_timeout on a thread that waits to receive. */
    method ExpireReceiver(t: Thread)
      requires Valid() && t in receivers.waiters
      modifies receivers`waiters, receivers`ring, receivers.ring`next, receivers.ring`prev, t`suspended, t`error
      ensures Valid() && Abs() == Mailboxes.ExpireReceiver(old(Abs()), t.id)
      ensures !t.suspended && t.error == Timeout && t !in receivers.ring
    {
      hide Lists, Unlink, WaitQueue.Ids;
      DropReceiver(t);
    }

    method DropReceiver(t: Thread)
      requires Lists() && t in receivers.waiters
      modifies receivers`waiters, receivers`ring, receivers.ring`next, receivers.ring`prev, t`suspended, t`error
      ensures Lists() && t.id in old(receivers.Ids())
      ensures receivers.Ids() == Unlink(old(receivers.Ids()), t.id) && senders.Ids() == old(senders.Ids())
      ensures !t.suspended && t.error == Timeout && t !in receivers.ring
    {
      hide Ring, Distinct, AllSuspended, IdsOf, NoErrors, Unlink;
      assert t in receivers.ring && t !in senders.ring;
      receivers.Expire(t);
      assert senders.Valid();
    }

    /** rt_thread_timeout on a thread that waits to send. */
    method ExpireSender(t: Thread)
      requires Valid() && t in senders.waiters
      modifies senders`waiters, senders`ring, senders.ring`next, senders.ring`prev, t`suspended, t`error
      ensures Valid() && Abs() == Mailboxes.ExpireSender(old(Abs()), t.id)
      ensures !t.suspended && t.error == Timeout && t !in senders.ring
    {
      hide Lists, Unlink, WaitQueue.Ids;
      DropSender(t);
    }

    method DropSender(t: Thread)
      requires Lists() && t in senders.waiters
      modifies senders`waiters, senders`ring, senders.ring`next, senders.ring`prev, t`suspended, t`error
      ensures Lists() && t.id in old(senders.Ids())
      ensures senders.Ids() == Unlink(old(senders.Ids()), t.id) && receivers.Ids() == old(receivers.Ids())
      ensures !t.suspended && t.error == Timeout && t !in senders.ring
    {
      hide Ring, Distinct, AllSuspended, IdsOf, NoErrors, Unlink;
      assert t in senders.ring && t !in receivers.ring;
      senders.Expire(t);
      assert receivers.Valid();
    }

    /** rt_mb_control with RT_IPC_CMD_RESET. */
    method Reset()
      requires Valid()
      modifies this, receivers`waiters, receivers`ring, senders`waiters, senders`ring
      modifies receivers.ring`next, receivers.ring`prev, receivers.ring`suspended, receivers.ring`error
      modifies senders.ring`next, senders.ring`prev, senders.ring`suspended, senders.ring`error
      ensures Valid() && Abs() == Mailboxes.Reset(old(Abs()))
      ensures forall i :: 0 <= i < |old(receivers.waiters)| ==>
                !old(receivers.waiters)[i].suspended && old(receivers.waiters)[i].error == Error
      ensures forall i :: 0 <= i < |old(senders.waiters)| ==>
                !old(senders.waiters)[i].suspended && old(senders.waiters)[i].error == Error
    {
      hide Lists, WaitQueue.Ids;
      FailAll();
      entry, inOffset, outOffset := 0, 0, 0;
    }

    method FailAll()
      requires Lists()
      modifies receivers`waiters, receivers`ring, senders`waiters, senders`ring
      modifies receivers.ring`next, receivers.ring`prev, receivers.ring`suspended, receivers.ring`error
      modifies senders.ring`next, senders.ring`prev, senders.ring`suspended, senders.ring`error
      ensures Lists() && receivers.Ids() == senders.Ids() == []
      ensures forall i :: 0 <= i < |old(receivers.waiters)| ==>
                !old(receivers.waiters)[i].suspended && old(receivers.waiters)[i].error == Error
      ensures forall i :: 0 <= i < |old(senders.waiters)| ==>
                !old(senders.waiters)[i].suspended && old(senders.waiters)[i].error == Error
    {
      hide Ring, Distinct, AllSuspended, IdsOf, NoErrors;
      assert receivers.ring[0] == receivers.head && senders.ring[0] == senders.head;
      assert NoneIn([receivers.head], senders.ring) && NoneIn([senders.head], receivers.ring);
      receivers.ResumeAll();
      assert senders.Valid();
      senders.ResumeAll();
      assert receivers.Valid();
      assert NoneShared(receivers, senders);
    }
  }
}
