/** rt_event_*: waiting for any or all of a set of bits, over every interleaving. */
module EventSets {

  import opened WaitList

  /** RT_EVENT_FLAG_AND, RT_EVENT_FLAG_OR and RT_EVENT_FLAG_CLEAR. */
  const AND_FLAG: bv8 := 1
  const OR_FLAG: bv8 := 2
  const CLEAR_FLAG: bv8 := 4

  predicate Has(option: bv8, flag: bv8) {
    option & flag != 0
  }

  // ----- Sets of event bits -----

  function Common(a: bv32, b: bv32): bv32 {
    a & b
  }

  function Union(a: bv32, b: bv32): bv32 {
    a | b
  }

  function Without(a: bv32, b: bv32): bv32 {
    a & !b
  }

  predicate Within(a: bv32, b: bv32) {
    a & b == a
  }

  lemma WithoutCommon(a: bv32, b: bv32)
    ensures Without(a, Common(a, b)) == Without(a, b)
  {}

  lemma CommonWithin(a: bv32, b: bv32)
    ensures Within(Common(a, b), b)
    ensures Within(b, a) ==> Common(a, b) == b
  {}

  lemma WithinTransitive(a: bv32, b: bv32, c: bv32)
    requires Within(a, b) && Within(b, c)
    ensures Within(a, c)
  {}

  lemma CommonGrows(a: bv32, b: bv32, c: bv32)
    requires Within(a, b) && Common(a, c) != 0
    ensures Common(b, c) != 0
  {}

  lemma WithoutShrinks(a: bv32, b: bv32)
    ensures Within(Without(a, b), a) && Within(a, a)
  {}

  // ----- The event object -----

  /** thread->event_set and thread->event_info. */
  datatype Want = Want(bits: bv32, option: bv8)

  datatype EventSet = EventSet(pending: bv32, waiters: seq<Tid>, info: map<Tid, Want>)

  datatype Received = Received(e: EventSet, error: Err, bits: bv32, blocked: bool)

  function Init(info: map<Tid, Want>): EventSet {
    EventSet(0, [], info)
  }

  /** Both calls ask for all bits first, and for any bit only if AND is not asked for. */
  predicate Satisfied(pending: bv32, w: Want) {
    if Has(w.option, AND_FLAG) then Within(w.bits, pending)
    else Has(w.option, OR_FLAG) && Common(w.bits, pending) != 0
  }

  function Consume(pending: bv32, bits: bv32, option: bv8): bv32 {
    if Has(option, CLEAR_FLAG) then Without(pending, bits) else pending
  }

  /** rt_event_recv up to rt_schedule. */
  function Recv(e: EventSet, t: Tid, w: Want, timeout: int, flag: Flag, prio: Priorities): Received {
    if w.bits == 0 then Received(e, Error, 0, false)
    else if Satisfied(e.pending, w) then
      Received(e.(pending := Consume(e.pending, w.bits, w.option)), Ok, Common(e.pending, w.bits), false)
    else if timeout == 0 then Received(e, Timeout, 0, false)
    else Received(e.(waiters := Suspend(e.waiters, prio, t, flag), info := e.info[t := w]), Ok, 0, true)
  }

  function WantOf(e: EventSet, t: Tid): Want {
    if t in e.info then e.info[t] else Want(0, 0)
  }

  /** What a waiter finds in event_set when it is resumed. */
  function Taken(pending: bv32, w: Want): bv32 {
    if Has(w.option, AND_FLAG) then w.bits else Common(w.bits, pending)
  }

  /** rt_event_send resumes the waiter at place i. */
  function Wake(e: EventSet, i: nat): EventSet
    requires i < |e.waiters|
  {
    var t := e.waiters[i];
    var w := WantOf(e, t);
    var bits := Taken(e.pending, w);
    EventSet(Consume(e.pending, bits, w.option), RemoveAt(e.waiters, i), e.info[t := Want(bits, w.option)])
  }

  /** The walk of rt_event_send along the wait list, from place i on. */
  function Sweep(e: EventSet, i: nat): EventSet
    decreases |e.waiters| - i
  {
    if i >= |e.waiters| then e
    else if Satisfied(e.pending, WantOf(e, e.waiters[i])) then Sweep(Wake(e, i), i)
    else Sweep(e, i + 1)
  }

  /** rt_event_send; sending nothing is an error. */
  function Send(e: EventSet, bits: bv32): EventSet {
    if bits == 0 then e else Sweep(e.(pending := Union(e.pending, bits)), 0)
  }

  /** rt_thread_timeout on a waiter. */
  function Expire(e: EventSet, t: Tid): EventSet
    requires t in e.waiters
  {
    e.(waiters := Unlink(e.waiters, t))
  }

  /** rt_event_control with RT_IPC_CMD_RESET. */
  function Reset(e: EventSet): EventSet {
    e.(pending := 0, waiters := [])
  }

  // ----- A deferred receive is an immediate one -----

  /** A waiter resumed from a set gets the bits, and leaves the set, that it would have got
      and left by calling rt_event_recv with that set. */
  lemma DeferredIsImmediate(e: EventSet, i: nat, timeout: int, flag: Flag, prio: Priorities)
    requires i < |e.waiters| && WantOf(e, e.waiters[i]).bits != 0
    requires Satisfied(e.pending, WantOf(e, e.waiters[i]))
    ensures var t := e.waiters[i];
            var now := Recv(e, t, WantOf(e, t), timeout, flag, prio);
            now.error == Ok && !now.blocked && Wake(e, i).pending == now.e.pending
                && WantOf(Wake(e, i), t).bits == now.bits
  {
    hide Common, Without, Within, Has;
    var w := WantOf(e, e.waiters[i]);
    CommonWithin(e.pending, w.bits);
    WithoutCommon(e.pending, w.bits);
    CommonCommutes(e.pending, w.bits);
  }

  /** A receive that succeeds gets an answer, and takes exactly the bits asked for out of the
      set if CLEAR is asked for, none otherwise. */
  lemma ClearTakesExactly(e: EventSet, t: Tid, w: Want, timeout: int, flag: Flag, prio: Priorities)
    requires w.bits != 0 && Satisfied(e.pending, w)
    ensures var r := Recv(e, t, w, timeout, flag, prio);
            && Answers(r.bits, w)
            && (!Has(w.option, CLEAR_FLAG) ==> r.e.pending == e.pending)
            && (Has(w.option, CLEAR_FLAG) ==>
                  Common(r.e.pending, w.bits) == 0 && Union(r.e.pending, Common(e.pending, w.bits)) == e.pending)
  {
    SplitByMask(e.pending, w.bits);
    TakenAnswers(e.pending, w);
    CommonWithin(e.pending, w.bits);
    CommonCommutes(e.pending, w.bits);
    hide Common, Without, Union, Within, Has, Answers;
  }

  lemma SplitByMask(a: bv32, b: bv32)
    ensures Common(Without(a, b), b) == 0 && Union(Without(a, b), Common(a, b)) == a
  {}

  lemma CommonCommutes(a: bv32, b: bv32)
    ensures Common(a, b) == Common(b, a)
  {}

  /** The set once each of these threads in turn has tried to receive without waiting. */
  function ServeInOrder(e: EventSet, ts: seq<Tid>): bv32
    decreases |ts|
  {
    if ts == [] then e.pending
    else ServeInOrder(Recv(e, ts[0], WantOf(e, ts[0]), 0, Fifo, map[]).e, ts[1..])
  }

  /** Sending serves the waiters in list order: each sees the set its predecessors' CLEAR
      flags have left. */
  lemma {:induction false} SweepServesInOrder(e: EventSet, i: nat)
    requires i <= |e.waiters| && Distinct(e.waiters)
    requires forall t :: t in e.waiters ==> WantOf(e, t).bits != 0
    ensures Sweep(e, i).pending == ServeInOrder(e, e.waiters[i..])
    decreases |e.waiters| - i
  {
    if i < |e.waiters| {
      var ws := e.waiters;
      var t, rest := ws[i], ws[i + 1..];
      assert ws[i..][1..] == rest;
      if Satisfied(e.pending, WantOf(e, t)) {
        var e' := Wake(e, i);
        DeferredIsImmediate(e, i, 0, Fifo, map[]);
        RemoveDistinct(ws, i);
        assert e'.waiters[i..] == rest;
        SweepServesInOrder(e', i);
        SameServing(e', Recv(e, t, WantOf(e, t), 0, Fifo, map[]).e, rest);
      } else {
        SweepServesInOrder(e, i + 1);
      }
    }
  }

  lemma {:induction false} SameServing(d: EventSet, e: EventSet, ts: seq<Tid>)
    requires d.pending == e.pending && forall i :: 0 <= i < |ts| ==> WantOf(d, ts[i]) == WantOf(e, ts[i])
    ensures ServeInOrder(d, ts) == ServeInOrder(e, ts)
    decreases |ts|
  {
    if ts != [] {
      var d' := Recv(d, ts[0], WantOf(d, ts[0]), 0, Fifo, map[]).e;
      var e' := Recv(e, ts[0], WantOf(e, ts[0]), 0, Fifo, map[]).e;
      assert forall i :: 0 <= i < |ts[1..]| ==> ts[1..][i] == ts[i + 1];
      SameServing(d', e', ts[1..]);
    }
  }

  // ----- Nobody waits for what is already there -----

  ghost predicate NoneSatisfied(e: EventSet, n: nat)
    requires n <= |e.waiters|
  {
    forall j :: 0 <= j < n ==> !Satisfied(e.pending, WantOf(e, e.waiters[j]))
  }

  lemma SatisfiedGrows(a: bv32, b: bv32, w: Want)
    requires Within(a, b) && Satisfied(a, w)
    ensures Satisfied(b, w)
  {
    hide Common, Within, Has;
    CommonCommutes(a, w.bits);
    CommonCommutes(b, w.bits);
    if Has(w.option, AND_FLAG) {
      WithinTransitive(w.bits, a, b);
    } else {
      CommonGrows(a, b, w.bits);
    }
  }

  lemma WakeKeepsUnsatisfied(e: EventSet, i: nat)
    requires i < |e.waiters| && Distinct(e.waiters) && NoneSatisfied(e, i)
    ensures NoneSatisfied(Wake(e, i), i) && Within(Wake(e, i).pending, e.pending)
  {
    hide Satisfied, Without, Common, Within, Has;
    var e' := Wake(e, i);
    WithoutShrinks(e.pending, Taken(e.pending, WantOf(e, e.waiters[i])));
    forall j | 0 <= j < i
      ensures !Satisfied(e'.pending, WantOf(e', e'.waiters[j]))
    {
      assert e'.waiters[j] == e.waiters[j] && WantOf(e', e.waiters[j]) == WantOf(e, e.waiters[j]);
      if Satisfied(e'.pending, WantOf(e, e.waiters[j])) {
        SatisfiedGrows(e'.pending, e.pending, WantOf(e, e.waiters[j]));
      }
    }
  }

  /** The walk resumes every waiter whose condition holds at its turn, and its CLEARs cannot
      make the condition of one it has passed true. */
  lemma {:induction false} SweepLeavesNoneSatisfied(e: EventSet, i: nat)
    requires i <= |e.waiters| && Distinct(e.waiters) && NoneSatisfied(e, i)
    ensures var e' := Sweep(e, i);
            && Distinct(e'.waiters) && NoneSatisfied(e', |e'.waiters|)
            && (forall t :: t in e'.waiters ==> t in e.waiters)
            && (forall t :: t !in e.waiters || t in e'.waiters ==> WantOf(e', t) == WantOf(e, t))
    decreases |e.waiters| - i
  {
    if i < |e.waiters| {
      if Satisfied(e.pending, WantOf(e, e.waiters[i])) {
        WakeKeepsUnsatisfied(e, i);
        RemoveDistinct(e.waiters, i);
        SweepLeavesNoneSatisfied(Wake(e, i), i);
      } else {
        SweepLeavesNoneSatisfied(e, i + 1);
      }
    }
  }

  /** Bits that answer a request: all of them, or some of them and no others. */
  predicate Answers(bits: bv32, w: Want) {
    if Has(w.option, AND_FLAG) then bits == w.bits
    else Has(w.option, OR_FLAG) && bits != 0 && Within(bits, w.bits)
  }

  lemma TakenAnswers(pending: bv32, w: Want)
    requires Satisfied(pending, w)
    ensures Answers(Taken(pending, w), w)
  {
    hide Common, Within, Has;
    CommonCommutes(pending, w.bits);
    CommonWithin(pending, w.bits);
  }

  lemma {:induction false} SweepAnswersTheResumed(e: EventSet, i: nat, t: Tid)
    requires i <= |e.waiters| && Distinct(e.waiters) && NoneSatisfied(e, i)
    requires t in e.waiters && t !in Sweep(e, i).waiters
    ensures Answers(WantOf(Sweep(e, i), t).bits, WantOf(e, t))
    decreases |e.waiters| - i
  {
    if i < |e.waiters| {
      if Satisfied(e.pending, WantOf(e, e.waiters[i])) {
        WakeKeepsUnsatisfied(e, i);
        RemoveDistinct(e.waiters, i);
        if t == e.waiters[i] {
          TakenAnswers(e.pending, WantOf(e, t));
          SweepLeavesNoneSatisfied(Wake(e, i), i);
        } else {
          SweepAnswersTheResumed(Wake(e, i), i, t);
        }
      } else {
        SweepAnswersTheResumed(e, i + 1, t);
      }
    }
  }

  // ----- Runs -----

  /** What a thread that has left the wait list returns. */
  datatype Verdict = Verdict(error: Err, bits: bv32)

  /** asked records what each waiting or resumed thread asked for, told what the last receive
      of each thread returned; inside are the threads whose receive has not returned. */
  datatype System = System(e: EventSet, asked: map<Tid, Want>, woken: map<Tid, Verdict>,
                           inside: set<Tid>, told: map<Tid, Verdict>)

  datatype Event =
    | RecvCall(t: Tid, w: Want, timeout: int, prio: Priorities)
    | SendCall(bits: bv32)
    | Expiry(t: Tid)
    | ResetCall
    | Return(t: Tid)

  /** rt_event_init. */
  function Start(info: map<Tid, Want>): (y: System)
    ensures Sound(y)
  {
    System(Init(info), map[], map[], {}, map[])
  }

  predicate Enabled(y: System, a: Event) {
    match a
    case RecvCall(t, _, _, _) => t !in y.e.waiters && t !in y.woken
    case Expiry(t) => t in y.e.waiters
    case Return(t) => t in y.woken
    case _ => true
  }

  /** The threads that have left the wait list join those about to return. */
  function Leave(y: System, e: EventSet, error: Err): map<Tid, Verdict> {
    map t | t in y.woken.Keys + (set u | u in y.e.waiters && u !in e.waiters) ::
      if t in y.e.waiters then Verdict(error, WantOf(e, t).bits) else y.woken[t]
  }

  function Step(y: System, a: Event, flag: Flag): System
    requires Enabled(y, a)
  {
    match a
    case RecvCall(t, w, timeout, prio) =>
      var r := Recv(y.e, t, w, timeout, flag, prio);
      if r.blocked then y.(e := r.e, asked := y.asked[t := w], inside := y.inside + {t})
      else y.(e := r.e, told := y.told[t := Verdict(r.error, r.bits)])
    case SendCall(bits) => y.(e := Send(y.e, bits), woken := Leave(y, Send(y.e, bits), Ok))
    case Expiry(t) => y.(e := Expire(y.e, t), woken := y.woken[t := Verdict(Timeout, 0)])
    case ResetCall => y.(e := Reset(y.e), woken := Leave(y, Reset(y.e), Error))
    case Return(t) => y.(woken := y.woken - {t}, inside := y.inside - {t}, told := y.told[t := y.woken[t]])
  }

  predicate IsRun(y: System, es: seq<Event>, flag: Flag)
    decreases |es|
  {
    es != [] ==> Enabled(y, es[0]) && IsRun(Step(y, es[0], flag), es[1..], flag)
  }

  function After(y: System, es: seq<Event>, flag: Flag): System
    requires IsRun(y, es, flag)
    decreases |es|
  {
    if es == [] then y else After(Step(y, es[0], flag), es[1..], flag)
  }

  ghost predicate Sound(y: System) {
    && Distinct(y.e.waiters)
    && NoneSatisfied(y.e, |y.e.waiters|)
    && (forall t :: t in y.e.waiters ==>
          t !in y.woken && t in y.asked && WantOf(y.e, t) == y.asked[t] && y.asked[t].bits != 0)
    && (forall t :: t in y.woken && y.woken[t].error == Ok ==>
          t in y.asked && Answers(y.woken[t].bits, y.asked[t]))
    && (forall t :: t in y.inside <==> t in y.e.waiters || t in y.woken)
  }

  lemma RecvKeepsUnsatisfied(e: EventSet, t: Tid, w: Want, timeout: int, flag: Flag, prio: Priorities)
    requires t !in e.waiters && NoneSatisfied(e, |e.waiters|)
    ensures var e' := Recv(e, t, w, timeout, flag, prio).e; NoneSatisfied(e', |e'.waiters|)
  {
    hide Satisfied, Without, Within, Has;
    var e' := Recv(e, t, w, timeout, flag, prio).e;
    SuspendMembers(e.waiters, prio, t, flag);
    WithoutShrinks(e.pending, w.bits);
    forall j | 0 <= j < |e'.waiters|
      ensures !Satisfied(e'.pending, WantOf(e', e'.waiters[j]))
    {
      var u := e'.waiters[j];
      assert u in e'.waiters;
      if u in e.waiters {
        var k := IndexIn(e.waiters, u);
        assert !Satisfied(e.pending, WantOf(e, u));
        if Satisfied(e'.pending, WantOf(e, u)) {
          SatisfiedGrows(e'.pending, e.pending, WantOf(e, u));
        }
      }
    }
  }

  lemma RecvKeepsSound(y: System, t: Tid, w: Want, timeout: int, flag: Flag, prio: Priorities)
    requires Sound(y) && t !in y.e.waiters && t !in y.woken
    ensures Sound(Step(y, RecvCall(t, w, timeout, prio), flag))
  {
    hide Satisfied, Answers, NoneSatisfied, Suspend, Distinct, Common, Consume;
    RecvKeepsUnsatisfied(y.e, t, w, timeout, flag, prio);
    SuspendMembers(y.e.waiters, prio, t, flag);
  }

  /** Who leaves the list is about to return, and nobody else changes place. */
  lemma LeaveMovesThreads(y: System, e': EventSet, error: Err)
    requires forall t :: t in e'.waiters ==> t in y.e.waiters
    requires forall t :: t in y.e.waiters ==> t !in y.woken
    ensures var woken := Leave(y, e', error);
            && (forall t :: t in woken <==> t in y.woken || (t in y.e.waiters && t !in e'.waiters))
            && (forall t :: t in y.woken ==> woken[t] == y.woken[t])
            && (forall t :: t in y.e.waiters && t !in e'.waiters ==> woken[t] == Verdict(error, WantOf(e', t).bits))
  {}

  lemma SendKeepsSound(y: System, bits: bv32, flag: Flag)
    requires Sound(y)
    ensures Sound(Step(y, SendCall(bits), flag))
  {
    hide Satisfied, Without, Within, Has, Answers, Sweep, Union, NoneSatisfied, Distinct, Leave;
    if bits != 0 {
      var e := y.e.(pending := Union(y.e.pending, bits));
      SweepLeavesNoneSatisfied(e, 0);
      forall t | t in e.waiters && t !in Sweep(e, 0).waiters
        ensures Answers(WantOf(Sweep(e, 0), t).bits, y.asked[t])
      {
        SweepAnswersTheResumed(e, 0, t);
      }
      assert forall t :: t in y.e.waiters ==> WantOf(e, t) == WantOf(y.e, t);
    }
    LeaveMovesThreads(y, Send(y.e, bits), Ok);
  }

  lemma ExpiryKeepsSound(y: System, t: Tid, flag: Flag)
    requires Sound(y) && t in y.e.waiters
    ensures Sound(Step(y, Expiry(t), flag))
  {
    hide Satisfied, Answers;
    UnlinkMembers(y.e.waiters, t);
    var ws := Unlink(y.e.waiters, t);
    forall j | 0 <= j < |ws|
      ensures !Satisfied(y.e.pending, WantOf(y.e, ws[j]))
    {
      assert ws[j] in ws;
      var k := IndexIn(y.e.waiters, ws[j]);
    }
  }

  lemma StepKeepsSound(y: System, a: Event, flag: Flag)
    requires Sound(y) && Enabled(y, a)
    ensures Sound(Step(y, a, flag))
  {
    match a
    case RecvCall(t, w, timeout, prio) => RecvKeepsSound(y, t, w, timeout, flag, prio);
    case SendCall(bits) => SendKeepsSound(y, bits, flag);
    case Expiry(t) => ExpiryKeepsSound(y, t, flag);
    case ResetCall =>
    case Return(_) =>
  }

  /** In every reachable state no suspended thread's condition is met by the current set,
      every thread resumed without error holds bits that answer what it asked for, and a thread
      whose receive has not returned is either in the list or resumed. */
  lemma {:induction false} ReachableIsSound(y: System, es: seq<Event>, flag: Flag)
    requires Sound(y) && IsRun(y, es, flag)
    ensures Sound(After(y, es, flag))
    ensures var e := After(y, es, flag).e;
            forall t :: t in e.waiters ==> !Satisfied(e.pending, WantOf(e, t))
    ensures var z := After(y, es, flag);
            forall t :: t in z.woken && z.woken[t].error == Ok ==> t in z.asked && Answers(z.woken[t].bits, z.asked[t])
    ensures var z := After(y, es, flag); forall t :: t in z.inside <==> (t in z.e.waiters) != (t in z.woken)
    decreases |es|
  {
    hide Satisfied, Answers;
    if es == [] {
      forall t | t in y.e.waiters
        ensures !Satisfied(y.e.pending, WantOf(y.e, t))
      {
        var i := IndexIn(y.e.waiters, t);
      }
    } else {
      StepKeepsSound(y, es[0], flag);
      ReachableIsSound(Step(y, es[0], flag), es[1..], flag);
    }
  }
}
