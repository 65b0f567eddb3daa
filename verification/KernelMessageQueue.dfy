/** The message queue object itself: nodes linked by number in a fixed pool. */
module NodeChains {

  import opened WaitList

  lemma AddDistinct(s: seq<nat>, n: nat)
    requires Distinct(s) && n !in s
    ensures Distinct([n] + s) && Distinct(s + [n])
  {}

  /** RT_NULL as a node number. */
  const NULL: int := -1

  /** The pointer to the node at place i of s. */
  function Follow(s: seq<nat>, i: nat): int {
    if i < |s| then s[i] else NULL
  }

  /** The nodes of s, linked in this order from the pointer from. */
  ghost predicate Chain(next: seq<int>, from: int, s: seq<nat>) {
    && from == Follow(s, 0)
    && forall i :: 0 <= i < |s| ==> s[i] < |next| && next[s[i]] == Follow(s, i + 1)
  }

  lemma PopChain(next: seq<int>, from: int, s: seq<nat>)
    requires Chain(next, from, s) && s != []
    ensures Chain(next, next[from], s[1..])
  {}

  lemma PushChain(next: seq<int>, from: int, s: seq<nat>, n: nat)
    requires Chain(next, from, s) && n !in s && n < |next|
    ensures Chain(next[n := from], n, [n] + s)
  {}

  lemma ElsewhereChain(next: seq<int>, from: int, s: seq<nat>, n: nat, v: int)
    requires Chain(next, from, s) && n !in s && n < |next|
    ensures Chain(next[n := v], from, s)
  {}

  lemma StartOfChain(next: seq<int>, from: int, s: seq<nat>)
    requires Chain(next, from, s)
    ensures from == NULL <==> s == []
  {}

  lemma SingleChain(next: seq<int>, n: nat)
    requires n < |next| && next[n] == NULL
    ensures Chain(next, n, [n])
  {}

  lemma AppendChain(next: seq<int>, from: int, s: seq<nat>, n: nat)
    requires Chain(next, from, s) && Distinct(s) && s != [] && n !in s && n < |next| && next[n] == NULL
    ensures s[|s| - 1] < |next| && Chain(next[s[|s| - 1] := n], from, s + [n])
  {}
}

module KernelMessageQueue {

  import opened WaitList
  import opened RingList
  import opened WaitQueues
  import opened MessageQueues
  import opened NodeChains

  class MessageQueueObject {
    const flag: Flag
    const waiting: WaitQueue
    const msgSize: nat
    const next: array<int>
    const cells: array<seq<Byte>>
    var head: int
    var tail: int
    var free: int
    var entry: nat
    ghost var queued: seq<nat>
    ghost var freed: seq<nat>

    ghost function Abs(): Queue
      reads this, cells, waiting
    {
      Queue(msgSize, cells[..], queued, freed, waiting.Ids())
    }

    /** The fields describe the two lists, which share no node. */
    ghost predicate Lists()
      reads this, next
    {
      && Chain(next[..], head, queued) && Distinct(queued)
      && tail == (if queued == [] then NULL else queued[|queued| - 1])
      && entry == |queued|
      && Chain(next[..], free, freed) && Distinct(freed)
      && forall i :: 0 <= i < |queued| ==> queued[i] !in freed
    }

    ghost predicate Valid()
      reads this, next, cells, waiting, waiting.ring`next, waiting.ring`prev
      reads waiting.waiters`suspended, waiting.waiters`error
    {
      && next.Length == cells.Length
      && (forall i :: 0 <= i < cells.Length ==> |cells[i]| == msgSize)
      && Lists()
      && waiting.Valid() && NoErrors(waiting.waiters)
    }

    /** A node of the pool that is in neither list. */
    ghost predicate Held(node: nat)
      reads this
    {
      node < next.Length && node !in queued && node !in freed
    }

    /** rt_mq_init: every node goes onto the free list. */
    constructor (request: nat, poolSize: nat, flag: Flag)
      ensures Valid() && msgSize == MsgSize(request) && cells.Length == MaxMsgs(request, poolSize)
      ensures Abs() == Init(msgSize, cells[..]) && this.flag == flag
      ensures fresh(waiting) && fresh(waiting.ring) && fresh(next) && fresh(cells)
    {
      this.flag := flag;
      var size := MsgSize(request);
      var max := MaxMsgs(request, poolSize);
      msgSize := size;
      cells := new seq<Byte>[max](_ => seq(size, _ => 0));
      next := new int[max];
      head, tail, free, entry := NULL, NULL, NULL, 0;
      queued, freed := [], [];
      waiting := new WaitQueue();
      new;
      FreeAll();
    }

    /** The loop of rt_mq_init. */
    method FreeAll()
      requires free == NULL && freed == []
      modifies this`free, this`freed, next
      ensures Chain(next[..], free, freed) && freed == AllNodes(next.Length)
    {
      var temp := 0;
      while temp < next.Length
        invariant temp <= next.Length && Chain(next[..], free, freed) && freed == AllNodes(temp)
      {
        assert temp !in freed;
        PushChain(next[..], free, freed, temp);
        ghost var links := next[..];
        next[temp] := free;
        assert next[..] == links[temp := free];
        free := temp;
        freed := [temp] + freed;
        temp := temp + 1;
      }
    }

    /** A node leaves the free list, unless that is empty. */
    method Alloc() returns (node: int)
      requires Valid()
      modifies this`free, this`freed
      ensures Valid() && Abs() == MessageQueues.Alloc(old(Abs()))
      ensures node == NULL <==> old(freed) == []
      ensures node != NULL ==> node == old(freed[0]) && Held(node)
    {
      node := free;
      if node == NULL {
        return;
      }
      PopChain(next[..], free, freed);
      TailMembers(freed);
      free := next[node];
      freed := freed[1..];
      assert Tail(old(freed)) == freed;
    }

    /** What a sender does to its node with interrupts enabled; rt_mq_send clears the link. */
    method Fill(node: nat, buffer: seq<Byte>, urgent: bool)
      requires Valid() && Held(node) && |buffer| <= msgSize
      modifies next, cells
      ensures Valid() && Abs() == CopyIn(old(Abs()), node, buffer)
      ensures !urgent ==> next[node] == NULL
    {
      if !urgent {
        ElsewhereChain(next[..], head, queued, node, NULL);
        ElsewhereChain(next[..], free, freed, node, NULL);
        ghost var links := next[..];
        next[node] := NULL;
        assert next[..] == links[node := NULL];
      }
      cells[node] := Overwrite(cells[node], buffer);
    }

    /** rt_mq_send links its node behind the tail. */
    method LinkBack(node: nat) returns (resumed: bool)
      requires Valid() && Held(node) && next[node] == NULL
      modifies this`head, this`tail, this`entry, this`queued, next
      modifies waiting`waiters, waiting`ring, waiting.ring`next, waiting.ring`prev, waiting.ring`suspended
      ensures Valid() && Abs() == Link(old(Abs()), node, false)
      ensures resumed == (old(waiting.waiters) != [])
      ensures resumed ==> var t := old(waiting.waiters[0]); !t.suspended && t.error == Ok
    {
      hide Ring, AllSuspended, IdsOf, NoErrors, Lists;
      Append(node);
      resumed := waiting.ResumeAny();
    }

    method Append(node: nat)
      requires Lists() && Held(node) && next[node] == NULL
      modifies this`head, this`tail, this`entry, this`queued, next
      ensures Lists() && queued == old(queued) + [node]
    {
      hide Chain, Distinct;
      AddDistinct(queued, node);
      ghost var links := next[..];
      StartOfChain(links, head, queued);
      if tail != NULL {
        AppendChain(links, head, queued, node);
        ElsewhereChain(links, free, freed, tail, node);
        next[tail] := node;
        assert next[..] == links[tail := node];
      } else {
        SingleChain(links, node);
        assert queued + [node] == [node];
      }
      tail := node;
      if head == NULL {
        head := node;
      }
      entry := entry + 1;
      queued := queued + [node];
      assert tail == queued[|queued| - 1];
    }

    /** rt_mq_urgent links its node before the head. */
    method LinkFront(node: nat) returns (resumed: bool)
      requires Valid() && Held(node)
      modifies this`head, this`tail, this`entry, this`queued, next
      modifies waiting`waiters, waiting`ring, waiting.ring`next, waiting.ring`prev, waiting.ring`suspended
      ensures Valid() && Abs() == Link(old(Abs()), node, true)
      ensures resumed == (old(waiting.waiters) != [])
      ensures resumed ==> var t := old(waiting.waiters[0]); !t.suspended && t.error == Ok
    {
      hide Ring, AllSuspended, IdsOf, NoErrors, Lists;
      Prepend(node);
      resumed := waiting.ResumeAny();
    }

    method Prepend(node: nat)
      requires Lists() && Held(node)
      modifies this`head, this`tail, this`entry, this`queued, next
      ensures Lists() && queued == [node] + old(queued)
    {
      hide Chain, Distinct;
      AddDistinct(queued, node);
      ghost var links := next[..];
      PushChain(links, head, queued, node);
      ElsewhereChain(links, free, freed, node, head);
      next[node] := head;
      assert next[..] == links[node := head];
      head := node;
      if tail == NULL {
        tail := node;
      }
      entry := entry + 1;
      queued := [node] + queued;
    }

    /** rt_mq_send and rt_mq_urgent when nothing else runs in between. */
    method Send(buffer: seq<Byte>, urgent: bool) returns (error: Err)
      requires Valid()
      modifies this`head, this`tail, this`free, this`freed, this`entry, this`queued, next, cells
      modifies waiting`waiters, waiting`ring, waiting.ring`next, waiting.ring`prev, waiting.ring`suspended
      ensures Valid()
      ensures error == if |buffer| > msgSize then Error else if old(freed) == [] then Full else Ok
      ensures error != Ok ==> Abs() == old(Abs())
      ensures error == Ok ==> var n := old(freed[0]);
                n < cells.Length && Abs() == Link(CopyIn(MessageQueues.Alloc(old(Abs())), n, buffer), n, urgent)
    {
      hide Ring, AllSuspended, IdsOf, NoErrors, Lists;
      if |buffer| > msgSize {
        return Error;
      }
      var node := Alloc();
      if node == NULL {
        return Full;
      }
      Fill(node, buffer, urgent);
      var resumed;
      if urgent {
        resumed := LinkFront(node);
      } else {
        resumed := LinkBack(node);
      }
      error := Ok;
    }

    /** One pass of rt_mq_recv, up to rt_schedule, return, or the copy out of node. */
    method TryRecv(self: Thread, left: int, ghost prio: Priorities) returns (blocked: bool, error: Err, node: int)
      requires Valid() && self !in waiting.ring && self.id !in waiting.Ids()
      requires Agrees(prio, waiting.waiters) && PriorityOf(prio, self.id) == self.priority
      modifies this`head, this`tail, this`entry, this`queued
      modifies waiting`waiters, waiting`ring, waiting.ring`next, waiting.ring`prev
      modifies self`next, self`prev, self`suspended, self`error
      ensures Valid()
      ensures var (q, o) := MessageQueues.TryRecv(old(Abs()), self.id, left, flag, prio);
              && Abs() == q && blocked == o.Blocked?
              && (!blocked ==> error == if o.Refused? then Timeout else Ok)
              && (o.Done? ==> node == o.node && Held(node))
      ensures blocked ==> self in waiting.waiters && self.suspended
    {
      blocked, error, node := false, Ok, NULL;
      if entry == 0 {
        self.error := Ok;
        if left == 0 {
          self.error := Timeout;
          return false, Timeout, NULL;
        }
        waiting.Suspend(self, flag, prio);
        blocked := true;
      } else {
        node := Unlink();
      }
    }

    method Unlink() returns (node: nat)
      requires Valid() && entry > 0
      modifies this`head, this`tail, this`entry, this`queued
      ensures Valid() && Abs() == old(Abs()).(queue := old(queued[1..]))
      ensures node == old(queued[0]) && Held(node)
    {
      PopChain(next[..], head, queued);
      TailMembers(queued);
      node := head;
      head := next[node];
      if tail == node {
        tail := NULL;
      }
      entry := entry - 1;
      queued := queued[1..];
      assert Tail(old(queued)) == queued;
    }

    /** The copy out of a node, with interrupts enabled. */
    method CopyOut(node: nat, size: nat) returns (buffer: seq<Byte>)
      requires Valid() && Held(node)
      ensures buffer == MessageQueues.CopyOut(Abs(), node, size)
    {
      buffer := cells[node][..if size > msgSize then msgSize else size];
    }

    /** A node returns to the free list. */
    method Release(node: nat)
      requires Valid() && Held(node)
      modifies this`free, this`freed, next
      ensures Valid() && Abs() == MessageQueues.Release(old(Abs()), node)
    {
      hide Ring, AllSuspended, IdsOf, NoErrors, Chain, Distinct;
      AddDistinct(freed, node);
      ghost var links := next[..];
      PushChain(links, free, freed, node);
      ElsewhereChain(links, head, queued, node, free);
      next[node] := free;
      assert next[..] == links[node := free];
      free := node;
      freed := [node] + freed;
    }

    /** rt_thread_timeout on a thread that waits here. */
    method Expire(t: Thread)
      requires Valid() && t in waiting.waiters
      modifies waiting`waiters, waiting`ring, waiting.ring`next, waiting.ring`prev, t`suspended, t`error
      ensures Valid() && Abs() == MessageQueues.Expire(old(Abs()), t.id)
      ensures !t.suspended && t.error == Timeout && t !in waiting.ring
    {
      hide Ring, Distinct, AllSuspended, IdsOf, NoErrors, WaitList.Unlink;
      waiting.Expire(t);
    }

    /** rt_mq_control with RT_IPC_CMD_RESET: the queue is emptied node by node. */
    method Reset()
      requires Valid()
      modifies this, next, waiting`waiters, waiting`ring
      modifies waiting.ring`next, waiting.ring`prev, waiting.ring`suspended, waiting.ring`error
      ensures Valid() && Abs() == MessageQueues.Reset(old(Abs()))
      ensures forall i :: 0 <= i < |old(waiting.waiters)| ==>
                !old(waiting.waiters)[i].suspended && old(waiting.waiters)[i].error == Error
    {
      hide Ring, AllSuspended, IdsOf, NoErrors, Distinct;
      ghost var threads := waiting.waiters;
      waiting.ResumeAll();
      while head != NULL
        invariant Valid() && waiting.waiters == []
        invariant Drain(queued, freed) == old(Drain(queued, freed)) && cells[..] == old(cells[..])
        invariant forall i :: 0 <= i < |threads| ==> !threads[i].suspended && threads[i].error == Error
        decreases |queued|
      {
        var msg := Unlink();
        Release(msg);
      }
      entry := 0;
    }
  }
}
