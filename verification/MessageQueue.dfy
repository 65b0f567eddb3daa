/** rt_mq_*: messages in linked nodes of a fixed pool, copied with interrupts enabled. */
module MessageQueues {

  import opened WaitList
  import HeapLayout

  type Byte = bv8

  /** The two lists, front first, as node numbers, and the payload of every node. */
  datatype Queue = Queue(msgSize: nat, cells: seq<seq<Byte>>, queue: seq<nat>, free: seq<nat>, waiters: seq<Tid>)

  datatype Outcome = Done(node: nat) | Refused | Blocked

  // ----- The pool -----

  /** mq->msg_size: RT_ALIGN, stored in 16 bits. */
  function MsgSize(request: nat): nat {
    HeapLayout.RtAlign(request) % 0x1_0000
  }

  /** mq->max_msgs: how many nodes of a link and a payload fit, stored in 16 bits. */
  function MaxMsgs(request: nat, poolSize: nat): nat {
    poolSize / (MsgSize(request) + 4) % 0x1_0000
  }

  function Offset(request: nat, node: nat): nat {
    node * (MsgSize(request) + 4)
  }

  /** Every node is aligned and lies within the pool. */
  lemma NodeLiesInThePool(request: nat, poolSize: nat, i: nat)
    requires i < MaxMsgs(request, poolSize)
    ensures Offset(request, i) % 4 == 0
    ensures Offset(request, i) + 4 + MsgSize(request) <= poolSize
  {
    hide MsgSize;
    SizeIsAligned(request);
    Multiple(i, MsgSize(request) + 4);
    Quotient(poolSize, MsgSize(request) + 4, i);
  }

  /** Nodes are aligned, lie within the pool, and do not overlap. */
  lemma NodesTileThePool(request: nat, poolSize: nat, i: nat, j: nat)
    requires i < j < MaxMsgs(request, poolSize)
    ensures Offset(request, i) % 4 == 0
    ensures Offset(request, i) + 4 + MsgSize(request) <= Offset(request, j)
    ensures Offset(request, j) + 4 + MsgSize(request) <= poolSize
  {
    hide MsgSize;
    NodeLiesInThePool(request, poolSize, i);
    NodeLiesInThePool(request, poolSize, j);
    Product(i, j, MsgSize(request) + 4);
  }

  lemma SizeIsAligned(request: nat)
    ensures MsgSize(request) % 4 == 0
  {}

  lemma Quotient(a: nat, n: nat, j: nat)
    requires n > 0 && j < a / n % 0x1_0000
    ensures j * n + n <= a
  {
    Product(j, a / n, n);
  }

  lemma Multiple(i: nat, n: nat)
    requires n % 4 == 0
    ensures i * n % 4 == 0
  {
    assert n == 4 * (n / 4) && i * n == 4 * (i * (n / 4));
  }

  lemma Product(i: nat, j: nat, n: nat)
    requires i < j
    ensures i * n + n <= j * n
  {
    assert (i + 1) * n <= j * n;
  }

  /** No further node would fit, exactly when the count of the nodes that fit needs no more
      than 16 bits. */
  lemma PoolIsUsedUp(request: nat, poolSize: nat)
    ensures Offset(request, MaxMsgs(request, poolSize)) + 4 + MsgSize(request) > poolSize
       <==> poolSize < 0x1_0000 * (MsgSize(request) + 4)
  {
    hide MsgSize;
    var n := MsgSize(request) + 4;
    var a, m := poolSize / n, MaxMsgs(request, poolSize);
    Division(poolSize, n);
    if a < 0x1_0000 {
      ProductMonotone(a + 1, 0x1_0000, n);
    } else {
      ProductMonotone(m + 1, 0x1_0000, n);
      ProductMonotone(0x1_0000, a, n);
    }
    NextProduct(m, n);
    NextProduct(a, n);
  }

  lemma Division(a: nat, n: nat)
    requires n > 0
    ensures a / n * n <= a < a / n * n + n
  {}

  lemma NextProduct(i: nat, n: nat)
    ensures (i + 1) * n == i * n + n
  {}

  lemma ProductMonotone(i: nat, j: nat, n: nat)
    requires i <= j
    ensures i * n <= j * n
  {}

  /** A node holds a message of the size asked for if and only if that is at most 65532:
      beyond, the 16-bit field has lost the high bits. */
  lemma SizeKeptUnlessTruncated(request: nat)
    requires request < HeapLayout.WORD
    ensures request <= MsgSize(request) <==> request <= 65532
    ensures MsgSize(65533) == 0
  {}

  // ----- One section with interrupts disabled each -----

  /** rt_mq_init links every node into the free list, the last one first. */
  function AllNodes(n: nat): (s: seq<nat>)
    ensures |s| == n && forall i :: 0 <= i < n ==> s[i] == n - 1 - i
  {
    seq(n, i requires 0 <= i < n => (n - 1 - i) as nat)
  }

  lemma AllNodesMembers(n: nat)
    ensures Distinct(AllNodes(n))
    ensures forall i: nat :: i in AllNodes(n) <==> i < n
  {
    forall i: nat | i < n
      ensures i in AllNodes(n)
    {
      assert AllNodes(n)[n - 1 - i] == i;
    }
  }

  function Init(msgSize: nat, cells: seq<seq<Byte>>): Queue {
    Queue(msgSize, cells, [], AllNodes(|cells|), [])
  }

  function Tail<T>(s: seq<T>): seq<T> {
    if s == [] then [] else s[1..]
  }

  /** rt_mq_send and rt_mq_urgent take a node off the free list, if there is one. */
  function Alloc(q: Queue): Queue {
    q.(free := Tail(q.free))
  }

  function Overwrite(cell: seq<Byte>, buffer: seq<Byte>): (r: seq<Byte>)
    requires |buffer| <= |cell|
    ensures |r| == |cell| && r[..|buffer|] == buffer
  {
    buffer + cell[|buffer|..]
  }

  /** The copy into a node, with interrupts enabled. */
  function CopyIn(q: Queue, node: nat, buffer: seq<Byte>): Queue
    requires node < |q.cells| && |buffer| <= |q.cells[node]|
  {
    q.(cells := q.cells[node := Overwrite(q.cells[node], buffer)])
  }

  /** The node joins the queue, at the front if urgent, and the first waiter is resumed. */
  function Link(q: Queue, node: nat, urgent: bool): Queue {
    q.(queue := if urgent then [node] + q.queue else q.queue + [node], waiters := Tail(q.waiters))
  }

  /** rt_mq_recv from disabling interrupts, on entry or after a wake-up, to rt_schedule,
      return or the copy; left is what remains of the timeout. */
  function TryRecv(q: Queue, t: Tid, left: int, flag: Flag, prio: Priorities): (Queue, Outcome) {
    if q.queue == [] then
      if left == 0 then (q, Refused)
      else (q.(waiters := Suspend(q.waiters, prio, t, flag)), Blocked)
    else (q.(queue := q.queue[1..]), Done(q.queue[0]))
  }

  /** What the receiver copies out: no more than the buffer or the node holds. */
  function CopyOut(q: Queue, node: nat, size: nat): seq<Byte>
    requires node < |q.cells| && |q.cells[node]| == q.msgSize
  {
    q.cells[node][..if size > q.msgSize then q.msgSize else size]
  }

  function Release(q: Queue, node: nat): Queue {
    q.(free := [node] + q.free)
  }

  function Expire(q: Queue, t: Tid): Queue
    requires t in q.waiters
  {
    q.(waiters := Unlink(q.waiters, t))
  }

  /** Nodes move one by one from the front of the queue to the front of the free list. */
  function Drain(queue: seq<nat>, free: seq<nat>): (r: seq<nat>)
    ensures |r| == |queue| + |free|
  {
    if queue == [] then free else Drain(queue[1..], [queue[0]] + free)
  }

  /** rt_mq_control with RT_IPC_CMD_RESET. */
  function Reset(q: Queue): Queue {
    q.(queue := [], free := Drain(q.queue, q.free), waiters := [])
  }

  // ----- Runs -----

  /** The thread that holds a node, and how far it is: a sender before or after its copy, a
      receiver with the message it unlinked and how many were unlinked before it. */
  datatype Holder =
    | Sender(t: Tid, buffer: seq<Byte>, urgent: bool, copied: bool)
    | Receiver(t: Tid, size: nat, message: seq<Byte>, ticket: nat)

  /** Beside the queue: who holds which node, the threads that were resumed or failed while
      they waited and have not run again, how many messages were unlinked so far, and the
      threads that called rt_mq_recv and have no answer yet. */
  datatype System = System(q: Queue, held: map<nat, Holder>, resumed: set<Tid>, failed: map<Tid, Err>,
                           unlinked: nat, inside: set<Tid>)

  datatype Event =
    | SendCall(t: Tid, buffer: seq<Byte>, urgent: bool)
    | CopyInNode(node: nat)
    | LinkNode(node: nat)
    | RecvCall(t: Tid, size: nat, left: int, prio: Priorities)
    | RecvAgain(t: Tid, size: nat, left: int, prio: Priorities)
    | ReleaseNode(node: nat)
    | Expiry(t: Tid)
    | ResetCall
    | Return(t: Tid)

  predicate Idle(y: System, t: Tid) {
    && t !in y.q.waiters && t !in y.resumed && t !in y.failed
    && forall n :: n in y.held ==> y.held[n].t != t
  }

  predicate Enabled(y: System, e: Event) {
    match e
    case SendCall(t, _, _) => Idle(y, t)
    case CopyInNode(n) => n in y.held && y.held[n].Sender? && !y.held[n].copied
    case LinkNode(n) => n in y.held && y.held[n].Sender? && y.held[n].copied
    case RecvCall(t, _, _, _) => Idle(y, t)
    case RecvAgain(t, _, _, _) => t in y.resumed
    case ReleaseNode(n) => n in y.held && y.held[n].Receiver?
    case Expiry(t) => t in y.q.waiters
    case ResetCall => true
    case Return(t) => t in y.failed
  }

  function Got(y: System, t: Tid, size: nat, left: int, flag: Flag, prio: Priorities): System
    requires InRange(y)
  {
    var (q, o) := TryRecv(y.q, t, left, flag, prio);
    y.(q := q, held := if o.Done? then y.held[o.node := Receiver(t, size, y.q.cells[o.node], y.unlinked)] else y.held,
       resumed := y.resumed - {t}, unlinked := if o.Done? then y.unlinked + 1 else y.unlinked,
       inside := if o.Refused? then y.inside - {t} else y.inside + {t})
  }

  function Fail(failed: map<Tid, Err>, ts: seq<Tid>): map<Tid, Err> {
    map t | t in failed.Keys + (set u | u in ts) :: if t in ts then Error else failed[t]
  }

  function Step(y: System, e: Event, flag: Flag): System
    requires Enabled(y, e) && InRange(y)
  {
    match e
    case SendCall(t, buffer, urgent) =>
      if |buffer| > y.q.msgSize || y.q.free == [] then y
      else y.(q := Alloc(y.q), held := y.held[y.q.free[0] := Sender(t, buffer, urgent, false)])
    case CopyInNode(n) =>
      y.(q := CopyIn(y.q, n, y.held[n].buffer), held := y.held[n := y.held[n].(copied := true)])
    case LinkNode(n) =>
      y.(q := Link(y.q, n, y.held[n].urgent), held := y.held - {n},
         resumed := if y.q.waiters == [] then y.resumed else y.resumed + {y.q.waiters[0]})
    case RecvCall(t, size, left, prio) => Got(y, t, size, left, flag, prio)
    case RecvAgain(t, size, left, prio) => Got(y, t, size, left, flag, prio)
    case ReleaseNode(n) => y.(q := Release(y.q, n), held := y.held - {n}, inside := y.inside - {y.held[n].t})
    case Expiry(t) => y.(q := Expire(y.q, t), failed := y.failed[t := Timeout])
    case ResetCall => y.(q := Reset(y.q), failed := Fail(y.failed, y.q.waiters))
    case Return(t) => y.(failed := y.failed - {t}, inside := y.inside - {t})
  }

  /** Nodes named anywhere are nodes of the pool, and payloads have their size. */
  predicate InRange(y: System) {
    && (forall i :: 0 <= i < |y.q.cells| ==> |y.q.cells[i]| == y.q.msgSize)
    && (forall i :: 0 <= i < |y.q.queue| ==> y.q.queue[i] < |y.q.cells|)
    && (forall i :: 0 <= i < |y.q.free| ==> y.q.free[i] < |y.q.cells|)
    && (forall n :: n in y.held ==> n < |y.q.cells|)
    && (forall n :: n in y.held && y.held[n].Sender? ==> |y.held[n].buffer| <= y.q.msgSize)
  }

  /** Every node is in exactly one place: free, queued, or held by one thread. */
  ghost predicate Partition(y: System) {
    && Distinct(y.q.queue) && Distinct(y.q.free)
    && (forall n: nat :: n < |y.q.cells| ==> n in y.q.queue || n in y.q.free || n in y.held)
    && (forall n :: n in y.q.queue ==> n !in y.q.free && n !in y.held)
    && (forall n :: n in y.q.free ==> n !in y.held)
    && |y.q.queue| + |y.q.free| + |y.held.Keys| == |y.q.cells|
  }

  /** Held nodes keep what their holder needs: the copied buffer, the unlinked message. */
  predicate HoldersUndisturbed(y: System)
    requires InRange(y)
  {
    forall n :: n in y.held ==>
      match y.held[n]
      case Sender(_, buffer, _, copied) => copied ==> y.q.cells[n][..|buffer|] == buffer
      case Receiver(_, _, message, _) => y.q.cells[n] == message
  }

  ghost predicate WaitersApart(y: System) {
    Distinct(y.q.waiters) && forall t :: t in y.q.waiters ==> t !in y.resumed
  }

  /** A receiver waits only while every queued message has a resumed receiver coming for it. */
  ghost predicate NoLostWakeUp(y: System) {
    y.q.waiters != [] ==> |y.q.queue| <= |y.resumed|
  }

  ghost predicate Sound(y: System) {
    InRange(y) && Partition(y) && HoldersUndisturbed(y) && WaitersApart(y) && NoLostWakeUp(y)
  }

  /** rt_mq_init. */
  function Start(msgSize: nat, cells: seq<seq<Byte>>): System {
    System(Init(msgSize, cells), map[], {}, map[], 0, {})
  }

  lemma StartIsSound(msgSize: nat, cells: seq<seq<Byte>>)
    requires forall i :: 0 <= i < |cells| ==> |cells[i]| == msgSize
    ensures Sound(Start(msgSize, cells))
  {
    var y, free := Start(msgSize, cells), AllNodes(|cells|);
    AllNodesMembers(|cells|);
    assert y.held.Keys == {};
    hide AllNodes;
    assert y.q.free == free && y.q.queue == [] && |y.q.queue| == 0;
    assert Partition(y);
  }

  lemma TailMembers<T>(s: seq<T>)
    requires Distinct(s)
    ensures Distinct(Tail(s)) && forall x :: x in Tail(s) <==> x in s && x != s[0]
  {
    if s != [] {
      RemoveDistinct(s, 0);
      assert RemoveAt(s, 0) == s[1..];
    }
  }

  // One node moves from one place to another; three parts of soundness each.

  lemma AllocKeepsPartition(y: System, h: Holder)
    requires Partition(y) && y.q.free != []
    ensures Partition(y.(q := Alloc(y.q), held := y.held[y.q.free[0] := h]))
  {
    TailMembers(y.q.free);
    assert y.q.free[0] in y.q.free;
    assert y.held[y.q.free[0] := h].Keys == y.held.Keys + {y.q.free[0]};
  }

  lemma AllocKeepsHolders(y: System, h: Holder)
    requires InRange(y) && HoldersUndisturbed(y) && y.q.free != []
    requires h.Sender? && !h.copied && |h.buffer| <= y.q.msgSize
    ensures var y' := y.(q := Alloc(y.q), held := y.held[y.q.free[0] := h]); InRange(y') && HoldersUndisturbed(y')
  {}

  lemma SendKeepsSound(y: System, t: Tid, buffer: seq<Byte>, urgent: bool, flag: Flag)
    requires Sound(y) && InRange(y) && Idle(y, t)
    ensures Sound(Step(y, SendCall(t, buffer, urgent), flag))
  {
    hide Partition, InRange, HoldersUndisturbed;
    if |buffer| <= y.q.msgSize && y.q.free != [] {
      AllocKeepsPartition(y, Sender(t, buffer, urgent, false));
      AllocKeepsHolders(y, Sender(t, buffer, urgent, false));
    }
  }

  lemma CopyKeepsSound(y: System, n: nat, flag: Flag)
    requires Sound(y) && Enabled(y, CopyInNode(n))
    ensures Sound(Step(y, CopyInNode(n), flag))
  {
    assert y.held.Keys == Step(y, CopyInNode(n), flag).held.Keys;
  }

  lemma LinkKeepsPartition(y: System, n: nat, urgent: bool)
    requires Partition(y) && n in y.held
    ensures Partition(y.(q := Link(y.q, n, urgent), held := y.held - {n}))
  {
    assert (y.held - {n}).Keys == y.held.Keys - {n};
    InsertDistinct(y.q.queue, 0, n);
    InsertDistinct(y.q.queue, |y.q.queue|, n);
    assert InsertAt(y.q.queue, 0, n) == [n] + y.q.queue;
    assert InsertAt(y.q.queue, |y.q.queue|, n) == y.q.queue + [n];
  }

  lemma LinkKeepsHolders(y: System, n: nat, urgent: bool)
    requires InRange(y) && HoldersUndisturbed(y) && n in y.held
    ensures var y' := y.(q := Link(y.q, n, urgent), held := y.held - {n}); InRange(y') && HoldersUndisturbed(y')
  {}

  lemma LinkKeepsSound(y: System, n: nat, flag: Flag)
    requires Sound(y) && InRange(y) && Enabled(y, LinkNode(n))
    ensures Sound(Step(y, LinkNode(n), flag))
  {
    hide InRange, Partition, HoldersUndisturbed;
    LinkKeepsPartition(y, n, y.held[n].urgent);
    LinkKeepsHolders(y, n, y.held[n].urgent);
    var y' := Step(y, LinkNode(n), flag);
    SameNodes(y.(q := Link(y.q, n, y.held[n].urgent), held := y.held - {n}), y');
    TailMembers(y.q.waiters);
    if y.q.waiters != [] {
      assert y.q.waiters[0] in y.q.waiters;
    }
  }

  lemma TakeKeepsPartition(y: System, h: Holder)
    requires Partition(y) && y.q.queue != []
    ensures Partition(y.(q := y.q.(queue := y.q.queue[1..]), held := y.held[y.q.queue[0] := h]))
  {
    TailMembers(y.q.queue);
    assert y.q.queue[0] in y.q.queue;
    assert y.held[y.q.queue[0] := h].Keys == y.held.Keys + {y.q.queue[0]};
  }

  lemma TakeKeepsHolders(y: System, t: Tid, size: nat)
    requires InRange(y) && HoldersUndisturbed(y) && y.q.queue != []
    ensures var h := Receiver(t, size, y.q.cells[y.q.queue[0]], y.unlinked);
            var y' := y.(q := y.q.(queue := y.q.queue[1..]), held := y.held[y.q.queue[0] := h]);
            InRange(y') && HoldersUndisturbed(y')
  {}

  lemma TakeKeepsSound(y: System, t: Tid, size: nat, left: int, flag: Flag, prio: Priorities)
    requires Sound(y) && InRange(y) && y.q.queue != []
    ensures Sound(Got(y, t, size, left, flag, prio))
  {
    assert y.q.queue[0] < |y.q.cells|;
    hide Partition, InRange, HoldersUndisturbed;
    var h := Receiver(t, size, y.q.cells[y.q.queue[0]], y.unlinked);
    TakeKeepsPartition(y, h);
    TakeKeepsHolders(y, t, size);
    SameNodes(y.(q := y.q.(queue := y.q.queue[1..]), held := y.held[y.q.queue[0] := h]),
              Got(y, t, size, left, flag, prio));
  }

  lemma WaitKeepsSound(y: System, t: Tid, size: nat, left: int, flag: Flag, prio: Priorities)
    requires Sound(y) && InRange(y) && (Idle(y, t) || t in y.resumed) && y.q.queue == []
    ensures Sound(Got(y, t, size, left, flag, prio))
  {
    hide Partition, HoldersUndisturbed, InRange, Suspend;
    var y' := Got(y, t, size, left, flag, prio);
    SuspendMembers(y.q.waiters, prio, t, flag);
    SameNodes(y, y');
  }

  /** Soundness of nodes does not depend on who waits. */
  lemma SameNodes(y: System, y': System)
    requires y.q.(waiters := []) == y'.q.(waiters := []) && y.held == y'.held
    requires InRange(y) && Partition(y) && HoldersUndisturbed(y)
    ensures InRange(y') && Partition(y') && HoldersUndisturbed(y')
  {}

  lemma GotKeepsSound(y: System, t: Tid, size: nat, left: int, flag: Flag, prio: Priorities)
    requires Sound(y) && InRange(y) && (Idle(y, t) || t in y.resumed)
    ensures Sound(Got(y, t, size, left, flag, prio))
  {
    hide Sound, Got;
    if y.q.queue != [] {
      TakeKeepsSound(y, t, size, left, flag, prio);
    } else {
      WaitKeepsSound(y, t, size, left, flag, prio);
    }
  }

  lemma ReleaseKeepsSound(y: System, n: nat, flag: Flag)
    requires Sound(y) && Enabled(y, ReleaseNode(n))
    ensures Sound(Step(y, ReleaseNode(n), flag))
  {
    assert Step(y, ReleaseNode(n), flag).held.Keys == y.held.Keys - {n};
  }

  lemma {:induction false} DrainMembers(queue: seq<nat>, free: seq<nat>)
    requires Distinct(queue) && Distinct(free) && forall n :: n in queue ==> n !in free
    ensures Distinct(Drain(queue, free)) && forall n :: n in Drain(queue, free) <==> n in queue || n in free
    decreases |queue|
  {
    if queue != [] {
      TailMembers(queue);
      InsertDistinct(free, 0, queue[0]);
      assert InsertAt(free, 0, queue[0]) == [queue[0]] + free;
      assert Tail(queue) == queue[1..];
      DrainMembers(queue[1..], [queue[0]] + free);
    }
  }

  lemma ResetKeepsSound(y: System, flag: Flag)
    requires Sound(y)
    ensures Sound(Step(y, ResetCall, flag))
  {
    DrainMembers(y.q.queue, y.q.free);
    var free := Drain(y.q.queue, y.q.free);
    forall i | 0 <= i < |free|
      ensures free[i] < |y.q.cells|
    {
      assert free[i] in free;
    }
  }

  lemma ExpiryKeepsSound(y: System, t: Tid, flag: Flag)
    requires Sound(y) && t in y.q.waiters
    ensures Sound(Step(y, Expiry(t), flag))
  {
    hide Partition, HoldersUndisturbed, InRange, Unlink;
    UnlinkMembers(y.q.waiters, t);
    SameNodes(y, Step(y, Expiry(t), flag));
  }

  lemma ReturnKeepsSound(y: System, t: Tid, flag: Flag)
    requires Sound(y) && t in y.failed
    ensures Sound(Step(y, Return(t), flag))
  {
    hide Partition, HoldersUndisturbed, InRange;
    SameNodes(y, Step(y, Return(t), flag));
  }

  lemma StepKeepsSound(y: System, e: Event, flag: Flag)
    requires Sound(y) && InRange(y) && Enabled(y, e)
    ensures Sound(Step(y, e, flag))
  {
    hide Sound, Got;
    match e
    case SendCall(t, buffer, urgent) => SendKeepsSound(y, t, buffer, urgent, flag);
    case CopyInNode(n) => CopyKeepsSound(y, n, flag);
    case LinkNode(n) => LinkKeepsSound(y, n, flag);
    case RecvCall(t, size, left, prio) => GotKeepsSound(y, t, size, left, flag, prio);
    case RecvAgain(t, size, left, prio) => GotKeepsSound(y, t, size, left, flag, prio);
    case ReleaseNode(n) => ReleaseKeepsSound(y, n, flag);
    case Expiry(t) => ExpiryKeepsSound(y, t, flag);
    case ResetCall => ResetKeepsSound(y, flag);
    case Return(t) => ReturnKeepsSound(y, t, flag);
  }

  ghost predicate IsRun(y: System, es: seq<Event>, flag: Flag)
    decreases |es|
  {
    InRange(y) && (es != [] ==> Enabled(y, es[0]) && IsRun(Step(y, es[0], flag), es[1..], flag))
  }

  ghost function After(y: System, es: seq<Event>, flag: Flag): System
    requires IsRun(y, es, flag)
    decreases |es|
  {
    if es == [] then y else After(Step(y, es[0], flag), es[1..], flag)
  }

  /** In every interleaving of senders, receivers, timeouts and resets, copies included, the
      nodes stay partitioned, nobody writes a node another thread holds or a queued one, and
      no wake-up is lost. */
  lemma {:induction false} ReachableIsSound(y: System, es: seq<Event>, flag: Flag)
    requires Sound(y) && IsRun(y, es, flag)
    ensures Sound(After(y, es, flag))
    ensures var z := After(y, es, flag);
            && Partition(z)
            && (z.q.waiters != [] ==> |z.q.queue| <= |z.resumed|)
    decreases |es|
  {
    if es != [] {
      StepKeepsSound(y, es[0], flag);
      ReachableIsSound(Step(y, es[0], flag), es[1..], flag);
    }
  }

  /** Once every resumed receiver has looked again, receivers wait only on an empty queue. */
  lemma NobodyIsStuck(y: System, es: seq<Event>, flag: Flag)
    requires Sound(y) && IsRun(y, es, flag)
    ensures var z := After(y, es, flag); z.q.waiters != [] && z.resumed == {} ==> z.q.queue == []
  {
    ReachableIsSound(y, es, flag);
  }

  // ----- Messages -----

  /** The queued messages in order of delivery. */
  function Contents(y: System): (s: seq<seq<Byte>>)
    requires InRange(y)
    ensures |s| == |y.q.queue|
  {
    seq(|y.q.queue|, i requires 0 <= i < |y.q.queue| => y.q.cells[y.q.queue[i]])
  }

  datatype Op = PushBack(m: seq<Byte>) | PushFront(m: seq<Byte>) | PopFront | Clear

  /** A double-ended queue, and what is popped from it. */
  function Play(s: seq<seq<Byte>>, ops: seq<Op>): (seq<seq<Byte>>, seq<seq<Byte>>)
    decreases |ops|
  {
    if ops == [] then (s, [])
    else
      match ops[0]
      case PushBack(m) => Play(s + [m], ops[1..])
      case PushFront(m) => Play([m] + s, ops[1..])
      case Clear => Play([], ops[1..])
      case PopFront =>
        if s == [] then Play(s, ops[1..])
        else var (rest, popped) := Play(s[1..], ops[1..]); (rest, [s[0]] + popped)
  }

  function OpOf(y: System, e: Event): seq<Op>
    requires InRange(y) && Enabled(y, e)
  {
    match e
    case LinkNode(n) => [if y.held[n].urgent then PushFront(y.q.cells[n]) else PushBack(y.q.cells[n])]
    case RecvCall(_, _, _, _) => if y.q.queue != [] then [PopFront] else []
    case RecvAgain(_, _, _, _) => if y.q.queue != [] then [PopFront] else []
    case ResetCall => [Clear]
    case _ => []
  }

  ghost function Ops(y: System, es: seq<Event>, flag: Flag): seq<Op>
    requires IsRun(y, es, flag)
    decreases |es|
  {
    if es == [] then [] else OpOf(y, es[0]) + Ops(Step(y, es[0], flag), es[1..], flag)
  }

  /** The message a receive unlinks, as its holder will keep it. */
  function TakenBy(y: System, e: Event, flag: Flag): seq<seq<Byte>>
    requires InRange(y) && Enabled(y, e)
  {
    if (e.RecvCall? || e.RecvAgain?) && y.q.queue != [] then [Step(y, e, flag).held[y.q.queue[0]].message] else []
  }

  ghost function Taken(y: System, es: seq<Event>, flag: Flag): seq<seq<Byte>>
    requires IsRun(y, es, flag)
    decreases |es|
  {
    if es == [] then [] else TakenBy(y, es[0], flag) + Taken(Step(y, es[0], flag), es[1..], flag)
  }

  lemma CopyKeepsContents(y: System, n: nat, flag: Flag)
    requires Sound(y) && Enabled(y, CopyInNode(n))
    ensures InRange(Step(y, CopyInNode(n), flag)) && Contents(Step(y, CopyInNode(n), flag)) == Contents(y)
  {
    var y' := Step(y, CopyInNode(n), flag);
    CopyKeepsSound(y, n, flag);
    forall i | 0 <= i < |y.q.queue|
      ensures y'.q.cells[y.q.queue[i]] == y.q.cells[y.q.queue[i]]
    {
      assert y.q.queue[i] in y.q.queue;
    }
  }

  lemma LinkPlaysPush(y: System, n: nat, flag: Flag)
    requires InRange(y) && Enabled(y, LinkNode(n)) && InRange(Step(y, LinkNode(n), flag))
    ensures Contents(Step(y, LinkNode(n), flag))
         == if y.held[n].urgent then [y.q.cells[n]] + Contents(y) else Contents(y) + [y.q.cells[n]]
  {}

  lemma GotPlaysPop(y: System, t: Tid, size: nat, left: int, flag: Flag, prio: Priorities)
    requires InRange(y) && InRange(Got(y, t, size, left, flag, prio))
    ensures var y' := Got(y, t, size, left, flag, prio);
            && Contents(y') == Tail(Contents(y))
            && (y.q.queue != [] ==> y.q.queue[0] in y'.held && Contents(y)[0] == y'.held[y.q.queue[0]].message)
  {}

  lemma OthersPlayNothing(y: System, y': System)
    requires InRange(y) && InRange(y') && y.q.queue == y'.q.queue && y.q.cells == y'.q.cells
    ensures Contents(y') == Contents(y)
  {}

  lemma PlayOne(s: seq<seq<Byte>>, m: seq<Byte>)
    ensures Play(s, []) == (s, [])
    ensures Play(s, [PushBack(m)]) == (s + [m], []) && Play(s, [PushFront(m)]) == ([m] + s, [])
    ensures Play(s, [Clear]) == ([], [])
    ensures s != [] ==> Play(s, [PopFront]) == (s[1..], [s[0]])
  {
    assert s != [] ==> [s[0]] + [] == [s[0]];
  }

  lemma StepPlaysOp(y: System, e: Event, flag: Flag)
    requires Sound(y) && InRange(y) && Enabled(y, e)
    ensures InRange(Step(y, e, flag))
    ensures Play(Contents(y), OpOf(y, e)) == (Contents(Step(y, e, flag)), TakenBy(y, e, flag))
  {
    hide Play, Partition, HoldersUndisturbed, WaitersApart, NoLostWakeUp, Contents, Got;
    StepKeepsSound(y, e, flag);
    PlayOne(Contents(y), if e.LinkNode? then y.q.cells[e.node] else []);
    match e
    case LinkNode(n) => LinkPlaysPush(y, n, flag);
    case RecvCall(t, size, left, prio) => GotPlaysPop(y, t, size, left, flag, prio);
    case RecvAgain(t, size, left, prio) => GotPlaysPop(y, t, size, left, flag, prio);
    case CopyInNode(n) => CopyKeepsContents(y, n, flag);
    case ResetCall => assert |Contents(Step(y, e, flag))| == 0;
    case _ => OthersPlayNothing(y, Step(y, e, flag));
  }

  lemma {:induction false} PlayConcat(s: seq<seq<Byte>>, a: seq<Op>, b: seq<Op>)
    ensures var (t, p) := Play(s, a); Play(s, a + b) == (Play(t, b).0, p + Play(t, b).1)
    decreases |a|
  {
    if a == [] {
      assert a + b == b && [] + Play(s, b).1 == Play(s, b).1;
    } else {
      assert (a + b)[1..] == a[1..] + b;
      match a[0]
      case PushBack(m) => PlayConcat(s + [m], a[1..], b);
      case PushFront(m) => PlayConcat([m] + s, a[1..], b);
      case Clear => PlayConcat([], a[1..], b);
      case PopFront =>
        PlayConcat(Tail(s), a[1..], b);
        if s != [] {
          assert [s[0]] + (Play(s[1..], a[1..]).1 + Play(Play(s[1..], a[1..]).0, b).1)
              == Play(s, a).1 + Play(Play(s, a).0, b).1;
        }
    }
  }

  /** The linked nodes are a double-ended queue: receivers get exactly the messages, in the
      order, that pushing at the back on send and at the front on urgent would give. */
  lemma {:induction false} RefinesDeque(y: System, es: seq<Event>, flag: Flag)
    requires Sound(y) && IsRun(y, es, flag)
    ensures InRange(After(y, es, flag))
    ensures Play(Contents(y), Ops(y, es, flag)) == (Contents(After(y, es, flag)), Taken(y, es, flag))
    decreases |es|
  {
    if es != [] {
      var y' := Step(y, es[0], flag);
      StepKeepsSound(y, es[0], flag);
      StepPlaysOp(y, es[0], flag);
      RefinesDeque(y', es[1..], flag);
      PlayConcat(Contents(y), OpOf(y, es[0]), Ops(y', es[1..], flag));
    }
  }

  /** A linked message begins with the bytes its sender gave, whatever ran during the copy,
      and a receiver copies out of the message it unlinked. */
  lemma CopiesAreFaithful(y: System, es: seq<Event>, flag: Flag, n: nat)
    requires Sound(y) && IsRun(y, es, flag) && n in After(y, es, flag).held
    ensures var z := After(y, es, flag);
            && InRange(z)
            && (z.held[n].Sender? && z.held[n].copied ==> z.held[n].buffer <= z.q.cells[n])
            && (z.held[n].Receiver? ==> CopyOut(z.q, n, z.held[n].size) <= z.held[n].message)
  {
    ReachableIsSound(y, es, flag);
  }

  // ----- From sender to receiver -----

  /** The operation a call of rt_mq_send or rt_mq_urgent with this buffer stands for. */
  function Pushes(buffer: seq<Byte>, urgent: bool): Op {
    if urgent then PushFront(buffer) else PushBack(buffer)
  }

  /** The deque operation of an event, with the bytes the sender gave, not those of the node. */
  function SentOpOf(y: System, e: Event): seq<Op>
    requires InRange(y) && Enabled(y, e)
  {
    if e.LinkNode? then [Pushes(y.held[e.node].buffer, y.held[e.node].urgent)] else OpOf(y, e)
  }

  ghost function SentOps(y: System, es: seq<Event>, flag: Flag): seq<Op>
    requires IsRun(y, es, flag)
    decreases |es|
  {
    if es == [] then [] else SentOpOf(y, es[0]) + SentOps(Step(y, es[0], flag), es[1..], flag)
  }

  /** Message by message, b begins with a. */
  ghost predicate Begins(a: seq<seq<Byte>>, b: seq<seq<Byte>>) {
    |a| == |b| && forall i :: 0 <= i < |a| ==> a[i] <= b[i]
  }

  predicate OpBegins(a: Op, b: Op) {
    match a
    case PushBack(m) => b.PushBack? && m <= b.m
    case PushFront(m) => b.PushFront? && m <= b.m
    case _ => a == b
  }

  ghost predicate OpsBegin(a: seq<Op>, b: seq<Op>) {
    |a| == |b| && forall i :: 0 <= i < |a| ==> OpBegins(a[i], b[i])
  }

  lemma {:induction false} PlayBegins(s: seq<seq<Byte>>, t: seq<seq<Byte>>, a: seq<Op>, b: seq<Op>)
    requires Begins(s, t) && OpsBegin(a, b)
    ensures Begins(Play(s, a).0, Play(t, b).0) && Begins(Play(s, a).1, Play(t, b).1)
    decreases |a|
  {
    if a != [] {
      assert OpBegins(a[0], b[0]) && OpsBegin(a[1..], b[1..]);
      match a[0]
      case PushBack(m) => PlayBegins(s + [m], t + [b[0].m], a[1..], b[1..]);
      case PushFront(m) => PlayBegins([m] + s, [b[0].m] + t, a[1..], b[1..]);
      case Clear => PlayBegins([], [], a[1..], b[1..]);
      case PopFront => PlayBegins(Tail(s), Tail(t), a[1..], b[1..]);
    }
  }

  lemma OpBeginsWithBuffer(y: System, e: Event)
    requires InRange(y) && HoldersUndisturbed(y) && Enabled(y, e)
    ensures OpsBegin(SentOpOf(y, e), OpOf(y, e))
  {
    if e.LinkNode? {
      var n := e.node;
      assert y.held[n].buffer == y.q.cells[n][..|y.held[n].buffer|];
    }
  }

  lemma OpsBeginConcat(a: seq<Op>, b: seq<Op>, c: seq<Op>, d: seq<Op>)
    requires OpsBegin(a, b) && OpsBegin(c, d)
    ensures OpsBegin(a + c, b + d)
  {}

  lemma {:induction false} OpsBeginWithBuffers(y: System, es: seq<Event>, flag: Flag)
    requires Sound(y) && IsRun(y, es, flag)
    ensures OpsBegin(SentOps(y, es, flag), Ops(y, es, flag))
    decreases |es|
  {
    if es != [] {
      var y' := Step(y, es[0], flag);
      StepKeepsSound(y, es[0], flag);
      OpBeginsWithBuffer(y, es[0]);
      OpsBeginWithBuffers(y', es[1..], flag);
      OpsBeginConcat(SentOpOf(y, es[0]), OpOf(y, es[0]), SentOps(y', es[1..], flag), Ops(y', es[1..], flag));
    }
  }

  /** One of these events is the call that the operation stands for. */
  ghost predicate WasSent(es: seq<Event>, op: Op) {
    exists i :: 0 <= i < |es| && es[i].SendCall? && op == Pushes(es[i].buffer, es[i].urgent)
  }

  /** Every node held by a sender is held for one of these calls. */
  ghost predicate SendersCalled(y: System, past: seq<Event>) {
    forall n :: n in y.held && y.held[n].Sender? ==> WasSent(past, Pushes(y.held[n].buffer, y.held[n].urgent))
  }

  lemma WasSentLater(past: seq<Event>, more: seq<Event>, op: Op)
    requires WasSent(past, op)
    ensures WasSent(past + more, op)
  {
    var i :| 0 <= i < |past| && past[i].SendCall? && op == Pushes(past[i].buffer, past[i].urgent);
    assert (past + more)[i] == past[i];
  }

  lemma StepKeepsSendersCalled(y: System, e: Event, flag: Flag, past: seq<Event>)
    requires InRange(y) && Enabled(y, e) && SendersCalled(y, past)
    ensures SendersCalled(Step(y, e, flag), past + [e])
  {
    hide WasSent, Suspend, Unlink, Drain, Pushes, Overwrite;
    var y' := Step(y, e, flag);
    forall n | n in y'.held && y'.held[n].Sender?
      ensures WasSent(past + [e], Pushes(y'.held[n].buffer, y'.held[n].urgent))
    {
      var h := y'.held[n];
      if n in y.held && y.held[n].Sender? && y.held[n].buffer == h.buffer && y.held[n].urgent == h.urgent {
        WasSentLater(past, [e], Pushes(h.buffer, h.urgent));
      } else {
        assert e == SendCall(h.t, h.buffer, h.urgent);
        JustSent(past, e);
      }
    }
  }

  lemma JustSent(past: seq<Event>, e: Event)
    requires e.SendCall?
    ensures WasSent(past + [e], Pushes(e.buffer, e.urgent))
  {
    assert (past + [e])[|past|] == e;
  }

  lemma {:induction false} PushesWereSent(y: System, es: seq<Event>, flag: Flag, past: seq<Event>, op: Op)
    requires IsRun(y, es, flag) && SendersCalled(y, past)
    requires op in SentOps(y, es, flag) && (op.PushBack? || op.PushFront?)
    ensures WasSent(past + es, op)
    decreases |es|
  {
    var e := es[0];
    assert (past + [e]) + es[1..] == past + es;
    if op in SentOpOf(y, e) {
      WasSentLater(past, es, op);
    } else {
      StepKeepsSendersCalled(y, e, flag, past);
      PushesWereSent(Step(y, e, flag), es[1..], flag, past + [e], op);
    }
  }

  /** From a new queue on: receivers get, and the queue still holds, messages that begin with
      the bytes given to rt_mq_send and rt_mq_urgent, in the order that a double-ended queue
      of those byte strings would give. */
  lemma DeliversWhatWasSent(msgSize: nat, cells: seq<seq<Byte>>, es: seq<Event>, flag: Flag)
    requires forall i :: 0 <= i < |cells| ==> |cells[i]| == msgSize
    requires IsRun(Start(msgSize, cells), es, flag)
    ensures var y := Start(msgSize, cells);
            && InRange(After(y, es, flag))
            && Begins(Play([], SentOps(y, es, flag)).1, Taken(y, es, flag))
            && Begins(Play([], SentOps(y, es, flag)).0, Contents(After(y, es, flag)))
            && forall op :: op in SentOps(y, es, flag) && (op.PushBack? || op.PushFront?) ==> WasSent(es, op)
  {
    var y := Start(msgSize, cells);
    StartIsSound(msgSize, cells);
    hide Sound, Play, SentOps, Ops, Taken, IsRun, After, WasSent;
    RefinesDeque(y, es, flag);
    OpsBeginWithBuffers(y, es, flag);
    assert Contents(y) == [];
    PlayBegins([], [], SentOps(y, es, flag), Ops(y, es, flag));
    forall op | op in SentOps(y, es, flag) && (op.PushBack? || op.PushFront?)
      ensures WasSent(es, op)
    {
      PushesWereSent(y, es, flag, [], op);
      assert [] + es == es;
    }
  }
}
