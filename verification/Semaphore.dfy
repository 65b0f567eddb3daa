/** rt_sem_*: what each section with interrupts disabled does, over every interleaving. */
module Semaphores {

  import opened Wrappers
  import opened WaitList

  /** The value is a 16-bit counter. */
  const COUNTS := 0x1_0000

  datatype Sem = Sem(value: nat, waiters: seq<Tid>)

  function Init(value: nat): Sem {
    Sem(value % COUNTS, [])
  }

  /** rt_sem_take up to rt_schedule. */
  function Take(s: Sem, t: Tid, time: int, flag: Flag, prio: Priorities): (Sem, Outcome) {
    if s.value > 0 then (s.(value := s.value - 1), Returned(Ok))
    else if time == 0 then (s, Returned(Timeout))
    else (s.(waiters := Suspend(s.waiters, prio, t, flag)), Suspended)
  }

  /** rt_sem_release, with the thread it hands the unit to. */
  function Release(s: Sem): (Sem, Option<Tid>) {
    if s.waiters != [] then (s.(waiters := s.waiters[1..]), Some(s.waiters[0]))
    else (s.(value := (s.value + 1) % COUNTS), None)
  }

  /** rt_thread_timeout on a waiter. */
  function Expire(s: Sem, t: Tid): Sem
    requires t in s.waiters
  {
    s.(waiters := Unlink(s.waiters, t))
  }

  /** rt_sem_control with RT_IPC_CMD_RESET. */
  function Reset(s: Sem, value: nat): Sem {
    Sem(value % COUNTS, [])
  }

  // ----- Runs -----

  /** A thread that has left the wait list returns the error it was woken with. The answers
      are what the calls of rt_sem_take returned so far; inside are the threads whose call has
      not returned. */
  datatype System = System(sem: Sem, woken: map<Tid, Err>, answers: seq<(Tid, Err)>, inside: set<Tid>)

  datatype Event =
    | TakeCall(t: Tid, time: int, prio: Priorities)
    | ReleaseCall
    | Expiry(t: Tid)
    | ResetCall(value: nat)
    | Return(t: Tid)

  predicate Enabled(y: System, e: Event) {
    match e
    case TakeCall(t, _, _) => t !in y.sem.waiters && t !in y.woken
    case Expiry(t) => t in y.sem.waiters
    case Return(t) => t in y.woken
    case _ => true
  }

  function Fail(woken: map<Tid, Err>, ts: seq<Tid>): map<Tid, Err> {
    map t | t in woken.Keys + (set u | u in ts) :: if t in ts then Error else woken[t]
  }

  function Step(y: System, e: Event, flag: Flag): System
    requires Enabled(y, e)
  {
    match e
    case TakeCall(t, time, prio) =>
      var (s, o) := Take(y.sem, t, time, flag, prio);
      if o.Returned? then y.(sem := s, answers := y.answers + [(t, o.error)])
      else y.(sem := s, inside := y.inside + {t})
    case ReleaseCall =>
      var (s, next) := Release(y.sem);
      y.(sem := s, woken := if next.Some? then y.woken[next.value := Ok] else y.woken)
    case Expiry(t) => y.(sem := Expire(y.sem, t), woken := y.woken[t := Timeout])
    case ResetCall(value) => y.(sem := Reset(y.sem, value), woken := Fail(y.woken, y.sem.waiters))
    case Return(t) =>
      y.(woken := y.woken - {t}, answers := y.answers + [(t, y.woken[t])], inside := y.inside - {t})
  }

  predicate IsRun(y: System, es: seq<Event>, flag: Flag)
    decreases |es|
  {
    es != [] ==> Enabled(y, es[0]) && IsRun(Step(y, es[0], flag), es[1..], flag)
  }

  function After(y: System, es: seq<Event>, flag: Flag): System
    requires IsRun(y, es, flag)
    decreases |es|
  {
    if es == [] then y else After(Step(y, es[0], flag), es[1..], flag)
  }

  /** rt_sem_init. */
  function Start(value: nat): (y: System)
    ensures Sound(y)
  {
    System(Init(value), map[], [], {})
  }

  predicate NeverReset(es: seq<Event>) {
    forall i :: 0 <= i < |es| ==> !es[i].ResetCall?
  }

  /** The calls of rt_sem_take that returned RT_EOK. */
  function Successes(answers: seq<(Tid, Err)>): nat {
    if answers == [] then 0
    else Successes(answers[..|answers| - 1]) + if answers[|answers| - 1].1 == Ok then 1 else 0
  }

  /** The threads that were woken with RT_EOK and will return it. */
  function HandedOver(woken: map<Tid, Err>): set<Tid> {
    set t | t in woken && woken[t] == Ok
  }

  /** The units on hand: in the counter, with callers told RT_EOK, and with threads that will
      be told so. */
  function Units(y: System): nat {
    y.sem.value + Successes(y.answers) + |HandedOver(y.woken)|
  }

  function ReleaseBy(e: Event): nat {
    if e.ReleaseCall? then 1 else 0
  }

  /** One when this release takes the 16-bit value from its maximum back to zero. */
  function WrapBy(y: System, e: Event): nat {
    if e.ReleaseCall? && y.sem.waiters == [] && y.sem.value == COUNTS - 1 then 1 else 0
  }

  function Releases(es: seq<Event>): nat {
    if es == [] then 0 else ReleaseBy(es[0]) + Releases(es[1..])
  }

  function Wraps(y: System, es: seq<Event>, flag: Flag): nat
    requires IsRun(y, es, flag)
    decreases |es|
  {
    if es == [] then 0 else WrapBy(y, es[0]) + Wraps(Step(y, es[0], flag), es[1..], flag)
  }

  /** What every event keeps. */
  ghost predicate Sound(y: System) {
    && y.sem.value < COUNTS
    && (y.sem.value > 0 ==> y.sem.waiters == [])
    && Distinct(y.sem.waiters)
    && (forall t :: t in y.sem.waiters ==> t !in y.woken)
    && (forall t :: t in y.inside <==> t in y.sem.waiters || t in y.woken)
  }

  lemma TakeKeepsSound(y: System, t: Tid, time: int, prio: Priorities, flag: Flag)
    requires Sound(y) && Enabled(y, TakeCall(t, time, prio))
    ensures Sound(Step(y, TakeCall(t, time, prio), flag))
  {
    hide Suspend, Distinct;
    SuspendMembers(y.sem.waiters, prio, t, flag);
  }

  lemma ReleaseKeepsSound(y: System, flag: Flag)
    requires Sound(y)
    ensures Sound(Step(y, ReleaseCall, flag))
  {
    var ws := y.sem.waiters;
    if ws != [] {
      RemoveDistinct(ws, 0);
      assert RemoveAt(ws, 0) == ws[1..];
    }
  }

  lemma ExpiryKeepsSound(y: System, t: Tid, flag: Flag)
    requires Sound(y) && Enabled(y, Expiry(t))
    ensures Sound(Step(y, Expiry(t), flag))
  {
    hide Unlink;
    UnlinkMembers(y.sem.waiters, t);
  }

  lemma StepKeepsSound(y: System, e: Event, flag: Flag)
    requires Sound(y) && Enabled(y, e)
    ensures Sound(Step(y, e, flag))
  {
    match e
    case TakeCall(t, time, prio) => TakeKeepsSound(y, t, time, prio, flag);
    case ReleaseCall => ReleaseKeepsSound(y, flag);
    case Expiry(t) => ExpiryKeepsSound(y, t, flag);
    case ResetCall(_) =>
    case Return(_) =>
  }

  /** In every reachable state, after resets too, a thread waits only while the value is
      zero, no thread waits twice, and a thread whose call has not returned is either in the
      list or woken. */
  lemma {:induction false} ReachableIsSound(y: System, es: seq<Event>, flag: Flag)
    requires Sound(y) && IsRun(y, es, flag)
    ensures Sound(After(y, es, flag))
    ensures var z := After(y, es, flag);
            && (z.sem.value > 0 ==> z.sem.waiters == [])
            && (forall t :: t in z.inside <==> (t in z.sem.waiters) != (t in z.woken))
    decreases |es|
  {
    if es != [] {
      StepKeepsSound(y, es[0], flag);
      ReachableIsSound(Step(y, es[0], flag), es[1..], flag);
    }
  }

  /** A take in a sound state: it waits if and only if no unit is there and it may wait; else
      it returns at once, with RT_EOK and one unit if there is one and with -RT_ETIMEOUT and
      none otherwise. */
  lemma TakeAnswers(y: System, t: Tid, time: int, prio: Priorities, flag: Flag)
    requires Sound(y) && Enabled(y, TakeCall(t, time, prio))
    ensures var y' := Step(y, TakeCall(t, time, prio), flag);
            && (t in y'.inside <==> y.sem.value == 0 && time != 0)
            && (t in y'.sem.waiters <==> t in y'.inside)
            && (t in y'.inside ==> y'.answers == y.answers && y'.sem.value == 0)
            && (y.sem.value > 0 ==> y'.answers == y.answers + [(t, Ok)] && y'.sem.value == y.sem.value - 1)
            && (y.sem.value == 0 && time == 0 ==> y'.answers == y.answers + [(t, Timeout)] && y'.sem == y.sem)
  {
    SuspendMembers(y.sem.waiters, prio, t, flag);
  }

  lemma OneAnswer(answers: seq<(Tid, Err)>, a: (Tid, Err))
    ensures Successes(answers + [a]) == Successes(answers) + if a.1 == Ok then 1 else 0
  {
    assert (answers + [a])[..|answers|] == answers;
  }

  lemma UnitsOfTake(y: System, e: Event, flag: Flag)
    requires Sound(y) && Enabled(y, e) && e.TakeCall?
    ensures Units(Step(y, e, flag)) == Units(y)
  {
    OneAnswer(y.answers, (e.t, Ok));
    OneAnswer(y.answers, (e.t, Timeout));
    hide Successes;
  }

  lemma OneLess(woken: map<Tid, Err>, t: Tid)
    requires t in woken
    ensures |HandedOver(woken)| == |HandedOver(woken - {t})| + if woken[t] == Ok then 1 else 0
  {
    var rest := HandedOver(woken - {t});
    if woken[t] == Ok {
      assert HandedOver(woken) == rest + {t};
    } else {
      assert HandedOver(woken) == rest;
    }
  }

  lemma OneMoreWoken(woken: map<Tid, Err>, t: Tid, e: Err)
    requires t !in woken
    ensures |HandedOver(woken[t := e])| == |HandedOver(woken)| + if e == Ok then 1 else 0
  {
    OneLess(woken[t := e], t);
    assert woken[t := e] - {t} == woken;
  }

  lemma UnitsOfReturn(y: System, t: Tid, flag: Flag)
    requires Enabled(y, Return(t))
    ensures Units(Step(y, Return(t), flag)) == Units(y)
  {
    OneAnswer(y.answers, (t, y.woken[t]));
    OneLess(y.woken, t);
    hide Successes, HandedOver;
  }

  lemma UnitsOfRelease(y: System, flag: Flag)
    requires Sound(y)
    ensures Units(y) + 1 == Units(Step(y, ReleaseCall, flag)) + COUNTS * WrapBy(y, ReleaseCall)
  {
    hide Successes, HandedOver;
    if y.sem.waiters != [] {
      OneMoreWoken(y.woken, y.sem.waiters[0], Ok);
    }
  }

  lemma UnitsOfExpiry(y: System, t: Tid, flag: Flag)
    requires Sound(y) && Enabled(y, Expiry(t))
    ensures Units(Step(y, Expiry(t), flag)) == Units(y)
  {
    hide Successes, HandedOver, Unlink;
    OneMoreWoken(y.woken, t, Timeout);
  }

  /** A reset takes the units in the counter, and no unit a thread has been given. */
  lemma ResetSetsUnits(y: System, value: nat, flag: Flag)
    requires Sound(y)
    ensures var y' := Step(y, ResetCall(value), flag);
            Units(y') == value % COUNTS + Successes(y.answers) + |HandedOver(y.woken)|
  {
    var y' := Step(y, ResetCall(value), flag);
    assert HandedOver(y'.woken) == HandedOver(y.woken);
  }

  lemma UnitsOfStep(y: System, e: Event, flag: Flag)
    requires Sound(y) && Enabled(y, e) && !e.ResetCall?
    ensures Units(y) + ReleaseBy(e) == Units(Step(y, e, flag)) + COUNTS * WrapBy(y, e)
  {
    hide Sound, Units, Step;
    match e
    case TakeCall(_, _, _) => UnitsOfTake(y, e, flag);
    case ReleaseCall => UnitsOfRelease(y, flag);
    case Expiry(t) => UnitsOfExpiry(y, t, flag);
    case Return(t) => UnitsOfReturn(y, t, flag);
  }

  /** Units are neither lost nor made: what was there at first and what was released is in
      the counter or with a caller that was or will be told so, less 65536 for every time the
      counter wrapped. */
  lemma {:induction false} Conservation(y: System, es: seq<Event>, flag: Flag)
    requires Sound(y) && IsRun(y, es, flag) && NeverReset(es)
    ensures Units(y) + Releases(es) == Units(After(y, es, flag)) + COUNTS * Wraps(y, es, flag)
    decreases |es|
  {
    if es != [] {
      hide Sound, Units, Step;
      var y' := Step(y, es[0], flag);
      StepKeepsSound(y, es[0], flag);
      assert NeverReset(es[1..]) && !es[0].ResetCall?;
      UnitsOfStep(y, es[0], flag);
      Conservation(y', es[1..], flag);
    }
  }

  /** From rt_sem_init on: the initial value and the releases are the units in the counter, the
      takes that returned RT_EOK and those about to, if and only if no release found the
      counter at its maximum with nobody waiting. */
  lemma BalanceUnlessWrapped(value: nat, es: seq<Event>, flag: Flag)
    requires IsRun(Start(value), es, flag) && NeverReset(es)
    ensures var y := After(Start(value), es, flag);
            (value % COUNTS + Releases(es) == y.sem.value + Successes(y.answers) + |HandedOver(y.woken)|
             <==> Wraps(Start(value), es, flag) == 0)
  {
    Conservation(Start(value), es, flag);
    assert HandedOver(map[]) == {};
  }

  /** The wrapping case: a release at the maximum with nobody waiting loses all the units. */
  lemma ReleaseAtMaximumLosesUnits(flag: Flag)
    ensures var y, es := Start(COUNTS - 1), [ReleaseCall];
            && IsRun(y, es, flag) && NeverReset(es)
            && After(y, es, flag).sem == Sem(0, [])
            && COUNTS - 1 + Releases(es) != Units(After(y, es, flag))
  {
    var y, es := Start(COUNTS - 1), [ReleaseCall];
    assert es[1..] == [];
    assert Step(y, ReleaseCall, flag) == System(Sem(0, []), map[], [], {});
    assert HandedOver(map[]) == {};
  }

  predicate HasNotReturned(es: seq<Event>, t: Tid) {
    forall i :: 0 <= i < |es| ==> es[i] != Return(t)
  }

  /** Nothing that happens takes a unit back from a thread that has been woken with it. */
  lemma {:induction false} GrantIsKept(y: System, es: seq<Event>, flag: Flag, t: Tid)
    requires Sound(y) && IsRun(y, es, flag) && HasNotReturned(es, t)
    requires t in y.woken && y.woken[t] == Ok
    ensures t in After(y, es, flag).woken && After(y, es, flag).woken[t] == Ok
    decreases |es|
  {
    if es != [] {
      StepKeepsSound(y, es[0], flag);
      assert es[0] != Return(t) && HasNotReturned(es[1..], t);
      GrantIsKept(Step(y, es[0], flag), es[1..], flag, t);
    }
  }

  /** A release hands the unit to the thread that waits at the head and leaves the value and
      the other waiters alone; over every run up to its return that thread has the unit, and
      its call returns RT_EOK. */
  lemma HandOver(y: System, t: Tid, rest: seq<Tid>, es: seq<Event>, flag: Flag)
    requires Sound(y) && y.sem.waiters == [t] + rest
    requires IsRun(Step(y, ReleaseCall, flag), es, flag) && HasNotReturned(es, t)
    ensures Step(y, ReleaseCall, flag).sem == Sem(0, rest)
    ensures var z := After(Step(y, ReleaseCall, flag), es, flag);
            && t in z.woken && z.woken[t] == Ok && t !in z.sem.waiters
            && Step(z, Return(t), flag).answers == z.answers + [(t, Ok)]
  {
    var y' := Step(y, ReleaseCall, flag);
    StepKeepsSound(y, ReleaseCall, flag);
    assert y.sem.waiters[1..] == rest;
    GrantIsKept(y', es, flag, t);
    ReachableIsSound(y', es, flag);
  }

  predicate SamePriorities(es: seq<Event>, prio: Priorities) {
    forall i :: 0 <= i < |es| && es[i].TakeCall? ==> es[i].prio == prio
  }

  lemma StepKeepsOrder(y: System, e: Event, prio: Priorities)
    requires Sound(y) && Enabled(y, e) && (e.TakeCall? ==> e.prio == prio)
    requires Sorted(PrioritiesOf(prio, y.sem.waiters))
    ensures Sorted(PrioritiesOf(prio, Step(y, e, Prio).sem.waiters))
  {
    hide PrioritiesOf, Sorted, Suspend;
    var ws := y.sem.waiters;
    if e.TakeCall? {
      SuspendKeepsOrder(ws, prio, e.t);
    } else if e.ReleaseCall? && ws != [] {
      LeavingKeepsOrder(prio, ws, 0);
      assert RemoveAt(ws, 0) == ws[1..];
    } else if e.Expiry? {
      LeavingKeepsOrder(prio, ws, IndexIn(ws, e.t));
    } else if e.ResetCall? {
      NobodyIsSorted(prio);
    }
  }

  lemma NobodyIsSorted(prio: Priorities)
    ensures Sorted(PrioritiesOf(prio, []))
  {}

  /** While priorities stay fixed, a priority-ordered semaphore keeps its waiters from most
      to least urgent, so the thread a release wakes is as urgent as any that waits. */
  lemma {:induction false} WaitersStaySorted(y: System, es: seq<Event>, prio: Priorities)
    requires Sound(y) && IsRun(y, es, Prio) && SamePriorities(es, prio)
    requires Sorted(PrioritiesOf(prio, y.sem.waiters))
    ensures Sorted(PrioritiesOf(prio, After(y, es, Prio).sem.waiters))
    decreases |es|
  {
    if es != [] {
      StepKeepsSound(y, es[0], Prio);
      StepKeepsOrder(y, es[0], prio);
      assert SamePriorities(es[1..], prio);
      WaitersStaySorted(Step(y, es[0], Prio), es[1..], prio);
    }
  }

  const BEFORE: Priorities := map[1 := 10, 2 := 20]

  const AFTERWARDS: Priorities := map[1 := 10, 2 := 5]

  function OneWaits(): System { System(Sem(0, [1]), map[], [], {1}) }

  function BothWait(): System { System(Sem(0, [1, 2]), map[], [], {1, 2}) }

  const TWO_WAIT := [TakeCall(1, -1, BEFORE), TakeCall(2, -1, BEFORE)]

  /** A priority set while its thread waits does not move the thread: two threads wait, the
      second becomes more urgent, and a release still wakes the first. */
  lemma ChangedPriorityIsNotResorted()
    ensures IsRun(Start(0), TWO_WAIT, Prio) && SamePriorities(TWO_WAIT, BEFORE)
    ensures var y := After(Start(0), TWO_WAIT, Prio);
            && y.sem.waiters == [1, 2]
            && Sorted(PrioritiesOf(BEFORE, y.sem.waiters)) && !Sorted(PrioritiesOf(AFTERWARDS, y.sem.waiters))
            && Release(y.sem).1 == Some(1) && PriorityOf(AFTERWARDS, 2) < PriorityOf(AFTERWARDS, 1)
  {
    hide Step, IsRun, After, Sorted, PrioritiesOf, Enabled;
    FirstWaits();
    SecondWaits();
    NoMore(BothWait(), Prio);
    OneMore(OneWaits(), TakeCall(2, -1, BEFORE), [], Prio);
    OneMore(Start(0), TakeCall(1, -1, BEFORE), [TakeCall(2, -1, BEFORE)] + [], Prio);
    assert TWO_WAIT == [TakeCall(1, -1, BEFORE)] + ([TakeCall(2, -1, BEFORE)] + []);
    OrderBeforeAndAfterwards();
  }

  lemma OrderBeforeAndAfterwards()
    ensures Sorted(PrioritiesOf(BEFORE, [1, 2])) && !Sorted(PrioritiesOf(AFTERWARDS, [1, 2]))
  {
    assert PrioritiesOf(BEFORE, [1, 2]) == [10, 20];
    var ps := PrioritiesOf(AFTERWARDS, [1, 2]);
    assert ps[0] == 10 && ps[1] == 5;
  }

  lemma NoMore(y: System, flag: Flag)
    ensures IsRun(y, [], flag) && After(y, [], flag) == y
  {}

  lemma OneMore(y: System, e: Event, es: seq<Event>, flag: Flag)
    requires Enabled(y, e) && IsRun(Step(y, e, flag), es, flag)
    ensures IsRun(y, [e] + es, flag) && After(y, [e] + es, flag) == After(Step(y, e, flag), es, flag)
  {
    assert ([e] + es)[1..] == es;
  }

  lemma FirstWaits()
    ensures Enabled(Start(0), TakeCall(1, -1, BEFORE))
    ensures Step(Start(0), TakeCall(1, -1, BEFORE), Prio) == OneWaits()
  {
    assert Suspend([], BEFORE, 1, Prio) == [1];
  }

  lemma SecondWaits()
    ensures Enabled(OneWaits(), TakeCall(2, -1, BEFORE))
    ensures Step(OneWaits(), TakeCall(2, -1, BEFORE), Prio) == BothWait()
  {
    assert PrioritiesOf(BEFORE, [1]) == [10];
    assert Suspend([1], BEFORE, 2, Prio) == [1, 2];
    assert {1} + {2} == {1, 2};
  }
}

/** The semaphore object itself. */
module KernelSemaphore {

  import opened WaitList
  import opened RingList
  import opened WaitQueues
  import opened Semaphores

  class Semaphore {
    const flag: Flag
    const queue: WaitQueue
    var value: nat

    ghost function Abs(): Sem
      reads this, queue
    {
      Sem(value, queue.Ids())
    }

    ghost predicate Valid()
      reads this, queue, queue.ring`next, queue.ring`prev, queue.waiters`suspended, queue.waiters`error
    {
      && value < COUNTS
      && queue.Valid()
      && NoErrors(queue.waiters)
    }

    /** rt_sem_init. */
    constructor (value: nat, flag: Flag)
      ensures Valid() && Abs() == Init(value) && this.flag == flag && fresh(queue) && fresh(queue.ring)
    {
      this.value := value % COUNTS;
      this.flag := flag;
      queue := new WaitQueue();
    }

    /** rt_sem_take up to rt_schedule; a thread that is not blocked returns at once. */
    method Take(self: Thread, time: int, ghost prio: Priorities) returns (r: Outcome)
      requires Valid() && self !in queue.ring && self.id !in queue.Ids()
      requires Agrees(prio, queue.waiters) && PriorityOf(prio, self.id) == self.priority
      modifies this`value, queue`waiters, queue`ring, queue.ring`next, queue.ring`prev
      modifies self`next, self`prev, self`suspended, self`error
      ensures Valid()
      ensures (Abs(), r) == Semaphores.Take(old(Abs()), self.id, time, flag, prio)
      ensures r == Suspended ==> self in queue.waiters && self.suspended && self.error == Ok
    {
      hide Ring, Distinct, AllSuspended, IdsOf, Suspend, UrgenciesOf, InsertAt, Agrees;
      if value > 0 {
        value := value - 1;
        r := Returned(Ok);
      } else if time == 0 {
        r := Returned(Timeout);
      } else {
        self.error := Ok;
        queue.Suspend(self, flag, prio);
        r := Suspended;
      }
    }

    /** rt_sem_release. */
    method Release() returns (needSchedule: bool)
      requires Valid()
      modifies this`value, queue`waiters, queue`ring, queue.ring`next, queue.ring`prev, queue.ring`suspended
      ensures Valid()
      ensures Abs() == Semaphores.Release(old(Abs())).0
      ensures needSchedule == Semaphores.Release(old(Abs())).1.Some?
      ensures needSchedule ==> var t := old(queue.waiters[0]);
                Semaphores.Release(old(Abs())).1.value == t.id && !t.suspended && t.error == Ok
    {
      var empty := queue.IsEmpty();
      if !empty {
        var t := queue.ResumeHead();
        needSchedule := true;
      } else {
        value := (value + 1) % COUNTS;
        needSchedule := false;
      }
    }

    /** rt_thread_timeout on a thread that waits here. */
    method Expire(t: Thread)
      requires Valid() && t in queue.waiters
      modifies queue`waiters, queue`ring, queue.ring`next, queue.ring`prev, t`suspended, t`error
      ensures Valid() && Abs() == Semaphores.Expire(old(Abs()), t.id)
      ensures !t.suspended && t.error == Timeout && t !in queue.ring
    {
      hide Ring, Distinct, AllSuspended, IdsOf, NoErrors, Unlink;
      queue.Expire(t);
    }

    /** rt_sem_control with RT_IPC_CMD_RESET: everyone waiting fails before the value is set. */
    method Reset(v: nat)
      requires Valid()
      modifies this`value, queue`waiters, queue`ring
      modifies queue.ring`next, queue.ring`prev, queue.ring`suspended, queue.ring`error
      ensures Valid() && Abs() == Semaphores.Reset(old(Abs()), v)
      ensures forall i :: 0 <= i < |old(queue.waiters)| ==>
                !old(queue.waiters)[i].suspended && old(queue.waiters)[i].error == Error
    {
      queue.ResumeAll();
      value := v % COUNTS;
    }
  }
}
