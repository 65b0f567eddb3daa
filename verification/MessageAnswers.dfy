/** What the callers of rt_mq_send and rt_mq_recv are told and given. */
module MessageAnswers {
  import opened WaitList
  import opened MessageQueues

  // ----- Which message a receiver holds -----

  /** A receiver holds the message that was unlinked when its ticket was next, and no two
      receivers have the same ticket. */
  ghost predicate TicketsName(y: System, past: seq<seq<Byte>>) {
    && |past| == y.unlinked
    && (forall n :: n in y.held && y.held[n].Receiver? ==>
          y.held[n].ticket < |past| && y.held[n].message == past[y.held[n].ticket])
    && (forall n, m :: n in y.held && m in y.held && n != m && y.held[n].Receiver? && y.held[m].Receiver? ==>
          y.held[n].ticket != y.held[m].ticket)
  }

  lemma StepKeepsTickets(y: System, e: Event, flag: Flag, past: seq<seq<Byte>>)
    requires InRange(y) && Enabled(y, e) && TicketsName(y, past)
    ensures TicketsName(Step(y, e, flag), past + TakenBy(y, e, flag))
    ensures Step(y, e, flag).q.msgSize == y.q.msgSize
  {
    hide TicketsName, InRange, Got;
    match e
    case RecvCall(t, size, left, prio) => GotKeepsTickets(y, e, t, size, left, prio, flag, past);
    case RecvAgain(t, size, left, prio) => GotKeepsTickets(y, e, t, size, left, prio, flag, past);
    case _ =>
      OthersKeepTickets(y, e, flag, past);
      assert past + [] == past;
  }

  lemma OthersKeepTickets(y: System, e: Event, flag: Flag, past: seq<seq<Byte>>)
    requires InRange(y) && Enabled(y, e) && TicketsName(y, past) && !e.RecvCall? && !e.RecvAgain?
    ensures TicketsName(Step(y, e, flag), past)
    ensures Step(y, e, flag).q.msgSize == y.q.msgSize
  {
    hide InRange, Suspend, Unlink, Drain, Overwrite;
  }

  lemma GotKeepsTickets(
      y: System, e: Event, t: Tid, size: nat, left: int, prio: Priorities, flag: Flag, past: seq<seq<Byte>>)
    requires InRange(y) && Enabled(y, e) && TicketsName(y, past) && (e.RecvCall? || e.RecvAgain?)
    requires Step(y, e, flag) == Got(y, t, size, left, flag, prio)
    ensures TicketsName(Step(y, e, flag), past + TakenBy(y, e, flag))
    ensures Step(y, e, flag).q.msgSize == y.q.msgSize
  {
    hide InRange, Suspend, Step;
    if y.q.queue == [] {
      assert past + TakenBy(y, e, flag) == past;
    }
  }

  lemma {:induction false} ReachableTickets(y: System, es: seq<Event>, flag: Flag, past: seq<seq<Byte>>)
    requires IsRun(y, es, flag) && TicketsName(y, past)
    ensures TicketsName(After(y, es, flag), past + Taken(y, es, flag))
    ensures After(y, es, flag).q.msgSize == y.q.msgSize
    decreases |es|
  {
    hide TicketsName, Step, TakenBy, InRange;
    if es == [] {
      assert past + Taken(y, es, flag) == past;
    } else {
      StepKeepsTickets(y, es[0], flag, past);
      ReachableTickets(Step(y, es[0], flag), es[1..], flag, past + TakenBy(y, es[0], flag));
      assert past + TakenBy(y, es[0], flag) + Taken(Step(y, es[0], flag), es[1..], flag)
          == past + Taken(y, es, flag);
    }
  }

  lemma CopyOutLength(q: Queue, n: nat, size: nat)
    requires n < |q.cells| && |q.cells[n]| == q.msgSize
    ensures CopyOut(q, n, size) <= q.cells[n]
    ensures |CopyOut(q, n, size)| == if size < q.msgSize then size else q.msgSize
  {}

  /** From a new queue on: the receive that unlinked the k-th message delivers as many bytes
      as both its buffer and a message hold; they are the k-th byte string that a double-ended
      queue of the senders' buffers gives, cut at the size of the receiver's buffer or followed
      by what the node held behind it. */
  lemma DeliversToReceivers(msgSize: nat, cells: seq<seq<Byte>>, es: seq<Event>, flag: Flag, n: nat)
    requires forall i :: 0 <= i < |cells| ==> |cells[i]| == msgSize
    requires IsRun(Start(msgSize, cells), es, flag)
    requires var z := After(Start(msgSize, cells), es, flag); n in z.held && z.held[n].Receiver?
    ensures var z := After(Start(msgSize, cells), es, flag);
            var h, sent := z.held[n], Play([], SentOps(Start(msgSize, cells), es, flag)).1;
            && InRange(z) && h.ticket < |sent|
            && var bytes := CopyOut(z.q, n, h.size);
            && |bytes| == (if h.size < msgSize then h.size else msgSize)
            && (|sent[h.ticket]| <= h.size ==> sent[h.ticket] <= bytes)
            && (h.size <= |sent[h.ticket]| ==> bytes == sent[h.ticket][..h.size])
  {
    var y := Start(msgSize, cells);
    var z := After(y, es, flag);
    StartIsSound(msgSize, cells);
    DeliversWhatWasSent(msgSize, cells, es, flag);
    ReachableIsSound(y, es, flag);
    MessageIsUndisturbed(z, n);
    assert TicketsName(y, []);
    ReachableTickets(y, es, flag, []);
    var taken, sent := Taken(y, es, flag), Play([], SentOps(y, es, flag)).1;
    assert [] + taken == taken;
    hide IsRun, After, Taken, Sound, InRange, SentOps, Play, TicketsName, WasSent;
    TicketNames(z, taken, n);
    CopyOutLength(z.q, n, z.held[n].size);
    BeginsAt(sent, taken, z.held[n].ticket);
    CutOfBeginning(sent[z.held[n].ticket], z.q.cells[n], CopyOut(z.q, n, z.held[n].size), z.held[n].size);
  }

  lemma MessageIsUndisturbed(z: System, n: nat)
    requires Sound(z) && n in z.held && z.held[n].Receiver?
    ensures InRange(z) && n < |z.q.cells| && |z.q.cells[n]| == z.q.msgSize && z.q.cells[n] == z.held[n].message
  {}

  lemma TicketNames(z: System, past: seq<seq<Byte>>, n: nat)
    requires TicketsName(z, past) && n in z.held && z.held[n].Receiver?
    ensures z.held[n].ticket < |past| && z.held[n].message == past[z.held[n].ticket]
  {}

  lemma BeginsAt(a: seq<seq<Byte>>, b: seq<seq<Byte>>, k: nat)
    requires Begins(a, b) && k < |b|
    ensures k < |a| && a[k] <= b[k]
  {}

  lemma CutOfBeginning(a: seq<Byte>, m: seq<Byte>, bytes: seq<Byte>, size: nat)
    requires a <= m && bytes <= m && |bytes| == if size < |m| then size else |m|
    ensures |a| <= size ==> a <= bytes
    ensures size <= |a| ==> bytes == a[..size]
  {}

  // ----- Who is told what -----

  ghost predicate Receiving(y: System, t: Tid) {
    exists n :: n in y.held && y.held[n].Receiver? && y.held[n].t == t
  }

  /** In a sound state: a receive finds the queue empty or takes the oldest message; on an
      empty queue it waits unless its time is up, and then it ends without a message. */
  lemma ReceiveAnswers(y: System, t: Tid, size: nat, left: int, flag: Flag, prio: Priorities)
    requires Sound(y) && InRange(y) && t !in y.q.waiters
    ensures var y' := Got(y, t, size, left, flag, prio);
            && (t in y'.q.waiters <==> y.q.queue == [] && left != 0)
            && (t !in y'.inside <==> y.q.queue == [] && left == 0)
            && (y'.held != y.held <==> y.q.queue != [])
            && (y.q.queue != [] ==> Receiving(y', t) && Contents(y') == Contents(y)[1..])
  {
    if y.q.queue == [] {
      SuspendMembers(y.q.waiters, prio, t, flag);
    } else {
      assert y.q.queue[0] in y.q.queue;
      assert y.q.queue[0] in Got(y, t, size, left, flag, prio).held;
    }
  }

  /** In a sound state: a message that is not too long gets a node exactly when not every node
      is queued or held. */
  lemma SendAnswers(y: System, t: Tid, buffer: seq<Byte>, urgent: bool, flag: Flag)
    requires Sound(y) && InRange(y) && Idle(y, t)
    ensures var y' := Step(y, SendCall(t, buffer, urgent), flag);
            && (y' == y <==> |buffer| > y.q.msgSize || |y.q.queue| + |y.held.Keys| == |y.q.cells|)
            && (y' != y ==> exists n: nat :: n !in y.held && n !in y.q.queue
                              && y'.held == y.held[n := Sender(t, buffer, urgent, false)])
  {
    if y.q.free != [] {
      assert y.q.free[0] in y.q.free;
    }
  }

  /** Linking a message resumes the receiver at the head of the list, and a reset fails every
      waiting receiver and forgets every queued message. */
  lemma WakesTheHead(y: System, n: nat, flag: Flag)
    requires InRange(y) && Enabled(y, LinkNode(n)) && y.q.waiters != []
    ensures var y' := Step(y, LinkNode(n), flag);
            y'.q.waiters == y.q.waiters[1..] && y'.resumed == y.resumed + {y.q.waiters[0]}
  {}

  lemma ResetFailsAll(y: System, flag: Flag)
    requires InRange(y)
    ensures var y' := Step(y, ResetCall, flag);
            && y'.q.waiters == [] && y'.q.queue == [] && y'.resumed == y.resumed
            && (forall t :: t in y.q.waiters ==> t in y'.failed && y'.failed[t] == Error)
  {}

  /** Every thread that called rt_mq_recv and has no answer yet is in exactly one place: in the
      list, resumed, failed, or copying out of one node. */
  ghost predicate Accounted(y: System) {
    Places(y) && OneNodeEach(y)
  }

  ghost predicate Places(y: System) {
    && (forall t :: t in y.inside <==> t in y.q.waiters || t in y.resumed || t in y.failed || Receiving(y, t))
    && (forall t :: t in y.q.waiters ==> t !in y.resumed && t !in y.failed && !Receiving(y, t))
    && (forall t :: t in y.resumed ==> t !in y.failed && !Receiving(y, t))
    && (forall t :: t in y.failed ==> !Receiving(y, t))
  }

  ghost predicate OneNodeEach(y: System) {
    forall n, m :: n in y.held && m in y.held && n != m && y.held[n].Receiver? && y.held[m].Receiver? ==>
      y.held[n].t != y.held[m].t
  }

  /** No receiver takes or releases a node from one state to the other. */
  ghost predicate SameReceivers(y: System, y': System) {
    && (forall n :: n in y.held && y.held[n].Receiver? ==> n in y'.held && y'.held[n] == y.held[n])
    && (forall n :: n in y'.held && y'.held[n].Receiver? ==> n in y.held && y'.held[n] == y.held[n])
  }

  lemma SameReceiving(y: System, y': System)
    requires SameReceivers(y, y')
    ensures forall t :: Receiving(y', t) <==> Receiving(y, t)
    ensures OneNodeEach(y) ==> OneNodeEach(y')
  {
    forall t
      ensures Receiving(y', t) <==> Receiving(y, t)
    {
      if Receiving(y', t) {
        var n :| n in y'.held && y'.held[n].Receiver? && y'.held[n].t == t;
        assert n in y.held;
      }
      if Receiving(y, t) {
        var n :| n in y.held && y.held[n].Receiver? && y.held[n].t == t;
        assert n in y'.held;
      }
    }
  }

  lemma SendersMoveNoReceiver(y: System, e: Event, flag: Flag)
    requires Sound(y) && InRange(y) && Enabled(y, e)
    requires !e.RecvCall? && !e.RecvAgain? && !e.ReleaseNode?
    ensures SameReceivers(y, Step(y, e, flag))
  {
    hide InRange, HoldersUndisturbed, NoLostWakeUp, WaitersApart, Drain, Overwrite, WaitList.Unlink;
    if e.SendCall? && y.q.free != [] {
      assert y.q.free[0] in y.q.free;
    }
  }

  lemma OthersKeepPlaces(y: System, e: Event, flag: Flag)
    requires InRange(y) && Enabled(y, e) && Places(y) && WaitersApart(y)
    requires !e.RecvCall? && !e.RecvAgain? && !e.ReleaseNode?
    requires forall t :: Receiving(Step(y, e, flag), t) <==> Receiving(y, t)
    ensures Places(Step(y, e, flag))
  {
    hide InRange, Drain, Overwrite, Receiving, WaitList.Unlink;
    match e
    case LinkNode(_) =>
      TailMembers(y.q.waiters);
      if y.q.waiters != [] {
        assert y.q.waiters[0] in y.q.waiters;
      }
    case Expiry(t) => UnlinkMembers(y.q.waiters, t);
    case _ =>
  }

  /** An event of a sender, a timeout, a reset or a failed receiver's return. */
  lemma OthersKeepAccounted(y: System, e: Event, flag: Flag)
    requires Sound(y) && InRange(y) && Enabled(y, e) && Accounted(y)
    requires !e.RecvCall? && !e.RecvAgain? && !e.ReleaseNode?
    ensures Accounted(Step(y, e, flag))
  {
    hide InRange, Places, OneNodeEach, SameReceivers, Receiving;
    SendersMoveNoReceiver(y, e, flag);
    SameReceiving(y, Step(y, e, flag));
    OthersKeepPlaces(y, e, flag);
  }

  lemma ReceiveKeepsAccounted(y: System, t: Tid, size: nat, left: int, flag: Flag, prio: Priorities)
    requires Sound(y) && InRange(y) && (Idle(y, t) || t in y.resumed) && Accounted(y)
    ensures Accounted(Got(y, t, size, left, flag, prio))
  {
    hide Sound, InRange, Places, OneNodeEach, Got, Receiving;
    if y.q.queue == [] {
      WaitKeepsAccounted(y, t, size, left, flag, prio);
    } else {
      TakeKeepsAccounted(y, t, size, left, flag, prio);
    }
  }

  lemma WaitKeepsAccounted(y: System, t: Tid, size: nat, left: int, flag: Flag, prio: Priorities)
    requires Sound(y) && InRange(y) && (Idle(y, t) || t in y.resumed) && Accounted(y) && y.q.queue == []
    ensures Accounted(Got(y, t, size, left, flag, prio))
  {
    NotReceiving(y, t);
    hide InRange, Partition, HoldersUndisturbed, NoLostWakeUp, Receiving, OneNodeEach, Places, Suspend, Distinct;
    var y' := Got(y, t, size, left, flag, prio);
    SuspendMembers(y.q.waiters, prio, t, flag);
    SameReceiving(y, y');
    WaitKeepsPlaces(y, y', t);
  }

  /** t joins the list, or leaves without a message. */
  lemma WaitKeepsPlaces(y: System, y': System, t: Tid)
    requires Places(y) && !Receiving(y, t) && t !in y.q.waiters && t !in y.failed
    requires forall u :: Receiving(y', u) <==> Receiving(y, u)
    requires y'.failed == y.failed && y'.resumed == y.resumed - {t}
    requires (y'.q.waiters == y.q.waiters && y'.inside == y.inside - {t})
          || ((forall u :: u in y'.q.waiters <==> u == t || u in y.q.waiters) && y'.inside == y.inside + {t})
    ensures Places(y')
  {
    hide Receiving;
  }

  lemma TakeKeepsAccounted(y: System, t: Tid, size: nat, left: int, flag: Flag, prio: Priorities)
    requires Sound(y) && InRange(y) && (Idle(y, t) || t in y.resumed) && Accounted(y) && y.q.queue != []
    ensures Accounted(Got(y, t, size, left, flag, prio))
  {
    var n := y.q.queue[0];
    assert n in y.q.queue;
    NotReceiving(y, t);
    hide InRange, HoldersUndisturbed, NoLostWakeUp, Receiving, OneNodeEach;
    var y' := Got(y, t, size, left, flag, prio);
    OneMoreReceiver(y, y', n);
  }

  lemma NotReceiving(y: System, t: Tid)
    requires Places(y) && (Idle(y, t) || t in y.resumed)
    ensures !Receiving(y, t) && t !in y.q.waiters && t !in y.failed
  {}

  lemma OneMoreReceiver(y: System, y': System, n: nat)
    requires n !in y.held && n in y'.held && y'.held == y.held[n := y'.held[n]] && y'.held[n].Receiver?
    ensures forall t :: Receiving(y', t) <==> Receiving(y, t) || t == y'.held[n].t
    ensures OneNodeEach(y') <==> OneNodeEach(y) && !Receiving(y, y'.held[n].t)
  {
    forall t | Receiving(y, t)
      ensures Receiving(y', t)
    {
      var m :| m in y.held && y.held[m].Receiver? && y.held[m].t == t;
      assert m in y'.held && y'.held[m] == y.held[m];
    }
    assert forall m :: m in y.held ==> m in y'.held && y'.held[m] == y.held[m];
  }

  lemma ReleaseKeepsAccounted(y: System, n: nat, flag: Flag)
    requires InRange(y) && Enabled(y, ReleaseNode(n)) && Accounted(y)
    ensures Accounted(Step(y, ReleaseNode(n), flag))
  {
    hide InRange, Receiving, OneNodeEach;
    var y' := Step(y, ReleaseNode(n), flag);
    OneMoreReceiver(y', y, n);
  }

  /** No thread that calls rt_mq_recv is ever lost: in every interleaving it is in exactly one
      place until it has its answer. */
  lemma {:induction false} ReachableIsAccounted(y: System, es: seq<Event>, flag: Flag)
    requires Sound(y) && Accounted(y) && IsRun(y, es, flag)
    ensures Accounted(After(y, es, flag))
    decreases |es|
  {
    if es != [] {
      hide Accounted, Sound;
      StepKeepsSound(y, es[0], flag);
      match es[0] {
        case RecvCall(t, size, left, prio) => ReceiveKeepsAccounted(y, t, size, left, flag, prio);
        case RecvAgain(t, size, left, prio) => ReceiveKeepsAccounted(y, t, size, left, flag, prio);
        case ReleaseNode(n) => ReleaseKeepsAccounted(y, n, flag);
        case _ => OthersKeepAccounted(y, es[0], flag);
      }
      ReachableIsAccounted(Step(y, es[0], flag), es[1..], flag);
    }
  }

  lemma StartIsAccounted(msgSize: nat, cells: seq<seq<Byte>>)
    ensures Accounted(Start(msgSize, cells))
  {}
}
