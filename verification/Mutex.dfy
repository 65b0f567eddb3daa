/** rt_mutex_*: ownership, nesting and priority inheritance over every interleaving. */
module Mutexes {

  import opened Wrappers
  import opened WaitList

  /** hold is an 8-bit counter. */
  const HOLDS := 0x100

  const NO_PRIORITY := 0xFF

  datatype Mutex = Mutex(
    value: nat, owner: Option<Tid>, hold: nat, original: nat, waiters: seq<Tid>, prio: Priorities)

  function Init(prio: Priorities): Mutex {
    Mutex(1, None, 0, NO_PRIORITY, [], prio)
  }

  /** The owner inherits the priority of a more urgent thread about to wait. */
  function Inherit(m: Mutex, t: Tid): Priorities {
    if m.owner.Some? && PriorityOf(m.prio, t) < PriorityOf(m.prio, m.owner.value)
    then m.prio[m.owner.value := PriorityOf(m.prio, t)]
    else m.prio
  }

  /** rt_mutex_take up to rt_schedule. */
  function Take(m: Mutex, t: Tid, time: int, flag: Flag): (Mutex, Outcome) {
    if m.owner == Some(t) then (m.(hold := (m.hold + 1) % HOLDS), Returned(Ok))
    else if m.value > 0 then
      (m.(value := m.value - 1, owner := Some(t), original := PriorityOf(m.prio, t),
          hold := (m.hold + 1) % HOLDS), Returned(Ok))
    else if time == 0 then (m, Returned(Timeout))
    else
      var prio := Inherit(m, t);
      (m.(prio := prio, waiters := Suspend(m.waiters, prio, t, flag)), Suspended)
  }

  /** rt_mutex_release: the error it returns and, when the mutex changes hands, who gets it. */
  function Release(m: Mutex, t: Tid): (Mutex, Err) {
    if m.owner != Some(t) then (m, Error)
    else
      var held := m.(hold := (m.hold + HOLDS - 1) % HOLDS);
      if held.hold != 0 then (held, Ok)
      else
        var restored := held.(prio := m.prio[t := m.original]);
        (if m.waiters != [] then HandOver(restored) else Vacate(restored), Ok)
  }

  function HandOver(m: Mutex): Mutex
    requires m.waiters != []
  {
    m.(owner := Some(m.waiters[0]), original := PriorityOf(m.prio, m.waiters[0]),
       hold := (m.hold + 1) % HOLDS, waiters := m.waiters[1..])
  }

  function Vacate(m: Mutex): Mutex {
    m.(value := m.value + 1, owner := None, original := NO_PRIORITY)
  }

  /** rt_thread_timeout on a waiter. */
  function Expire(m: Mutex, t: Tid): Mutex
    requires t in m.waiters
  {
    m.(waiters := Unlink(m.waiters, t))
  }

  // ----- Runs -----

  /** depth counts, without bound, the takes the owner has not released; woken are the threads
      that left the list and have not run again, inside those whose rt_mutex_take has not
      returned, told what the last one of each thread returned, and came the threads that came
      to wait since the mutex last got an owner. */
  datatype System = System(
    m: Mutex, depth: nat, woken: map<Tid, Err>, inside: set<Tid>, told: map<Tid, Err>, came: set<Tid>)

  datatype Event =
    | TakeCall(t: Tid, time: int)
    | ReleaseCall(t: Tid)
    | Expiry(t: Tid)
    | Return(t: Tid)
    | SetPriority(t: Tid, priority: nat)

  predicate Running(y: System, t: Tid) {
    t !in y.m.waiters && t !in y.woken
  }

  predicate Enabled(y: System, e: Event) {
    match e
    case TakeCall(t, _) => Running(y, t)
    case ReleaseCall(t) => Running(y, t)
    case Expiry(t) => t in y.m.waiters
    case Return(t) => t in y.woken
    case SetPriority(_, _) => true
  }

  function StepTake(y: System, t: Tid, time: int, flag: Flag): System {
    var (m, r) := Take(y.m, t, time, flag);
    if r == Suspended then y.(m := m, inside := y.inside + {t}, came := y.came + {t})
    else
      y.(m := m, depth := if r == Returned(Ok) then y.depth + 1 else y.depth, told := y.told[t := r.error],
         came := if m.owner == y.m.owner then y.came else {})
  }

  function StepRelease(y: System, t: Tid): System {
    var m := Release(y.m, t).0;
    if y.m.owner != Some(t) then y.(m := m)
    else if m.owner == Some(t) then y.(m := m, depth := if y.depth > 0 then y.depth - 1 else y.depth)
    else if m.owner.Some? then y.(m := m, depth := 1, woken := y.woken[m.owner.value := Ok], came := {})
    else y.(m := m, depth := 0, came := {})
  }

  function Step(y: System, e: Event, flag: Flag): System
    requires Enabled(y, e)
  {
    match e
    case TakeCall(t, time) => StepTake(y, t, time, flag)
    case ReleaseCall(t) => StepRelease(y, t)
    case Expiry(t) => y.(m := Expire(y.m, t), woken := y.woken[t := Timeout])
    case Return(t) => y.(woken := y.woken - {t}, inside := y.inside - {t}, told := y.told[t := y.woken[t]])
    case SetPriority(t, p) => y.(m := y.m.(prio := y.m.prio[t := p]))
  }

  predicate IsRun(y: System, es: seq<Event>, flag: Flag)
    decreases |es|
  {
    es != [] ==> Enabled(y, es[0]) && IsRun(Step(y, es[0], flag), es[1..], flag)
  }

  function After(y: System, es: seq<Event>, flag: Flag): System
    requires IsRun(y, es, flag)
    decreases |es|
  {
    if es == [] then y else After(Step(y, es[0], flag), es[1..], flag)
  }

  /** rt_mutex_init. */
  function Start(prio: Priorities): (y: System)
    ensures Sound(y) && OnlyOwnerBoosted(y.m, prio) && Inherits(y.m) && BoostIsLeast(y, prio)
  {
    System(Init(prio), 0, map[], {}, map[], {})
  }

  // ----- Ownership -----

  ghost predicate Sound(y: System) {
    var m := y.m;
    && m.value <= 1
    && (m.value == 1 <==> m.owner == None)
    && (m.owner == None <==> y.depth == 0)
    && m.hold == y.depth % HOLDS
    && (m.waiters != [] ==> m.owner.Some?)
    && Distinct(m.waiters)
    && (m.owner.Some? ==> m.owner.value !in m.waiters)
    && (forall t :: t in m.waiters ==> t !in y.woken)
    && (forall t :: t in y.inside <==> t in m.waiters || t in y.woken)
    && (forall t :: t in y.woken ==> y.woken[t] == if m.owner == Some(t) then Ok else Timeout)
  }

  lemma TakeKeepsSound(y: System, t: Tid, time: int, flag: Flag)
    requires Sound(y) && Running(y, t)
    ensures Sound(Step(y, TakeCall(t, time), flag))
  {
    hide Suspend, Distinct;
    SuspendMembers(y.m.waiters, Inherit(y.m, t), t, flag);
  }

  lemma ReleaseKeepsSound(y: System, t: Tid)
    requires Sound(y) && Running(y, t)
    ensures Sound(StepRelease(y, t))
  {
    var ws := y.m.waiters;
    if ws != [] {
      RemoveDistinct(ws, 0);
      assert RemoveAt(ws, 0) == ws[1..];
    }
  }

  lemma StepKeepsSound(y: System, e: Event, flag: Flag)
    requires Sound(y) && Enabled(y, e)
    ensures Sound(Step(y, e, flag))
  {
    match e
    case TakeCall(t, time) => TakeKeepsSound(y, t, time, flag);
    case ReleaseCall(t) => ReleaseKeepsSound(y, t);
    case Expiry(t) => UnlinkMembers(y.m.waiters, t);
    case Return(_) =>
    case SetPriority(_, _) =>
  }

  /** In every reachable state the mutex is free exactly when nobody owns it, threads wait
      only for an owner, who is not among them, and hold is the nesting depth modulo 256. */
  lemma {:induction false} ReachableIsSound(y: System, es: seq<Event>, flag: Flag)
    requires Sound(y) && IsRun(y, es, flag)
    ensures Sound(After(y, es, flag))
    ensures var z := After(y, es, flag);
            && (z.m.value == 1 <==> z.m.owner == None) && z.m.value <= 1
            && (z.m.waiters != [] ==> z.m.owner.Some? && z.m.owner.value !in z.m.waiters)
            && z.m.hold == z.depth % HOLDS
    decreases |es|
  {
    if es != [] {
      StepKeepsSound(y, es[0], flag);
      ReachableIsSound(Step(y, es[0], flag), es[1..], flag);
    }
  }

  /** A take in a sound state: it waits if and only if another thread owns the mutex and it may
      wait, and it is refused if and only if another thread owns it and it may not; a refusal
      changes nothing. */
  lemma TakeAnswers(y: System, t: Tid, time: int, flag: Flag)
    requires Sound(y) && Enabled(y, TakeCall(t, time))
    ensures var y' := Step(y, TakeCall(t, time), flag);
            var theirs := y.m.owner.Some? && y.m.owner != Some(t);
            && (t in y'.inside <==> theirs && time != 0)
            && (t in y'.m.waiters <==> t in y'.inside)
            && (theirs && time == 0 ==> y' == y.(told := y.told[t := Timeout]))
            && (theirs ==> y'.m.owner == y.m.owner)
            && (!theirs ==> y'.m.owner == Some(t) && y'.depth == y.depth + 1 && y'.told == y.told[t := Ok])
  {
    hide Distinct;
    SuspendMembers(y.m.waiters, Inherit(y.m, t), t, flag);
  }

  /** When rt_mutex_take returns, at once or after waiting, it returns RT_EOK to the thread
      that then owns the mutex and -RT_ETIMEOUT to any other. */
  lemma ToldOkIffOwner(y: System, e: Event, flag: Flag)
    requires Sound(y) && Enabled(y, e) && (e.TakeCall? || e.Return?) && e.t !in Step(y, e, flag).inside
    ensures var y' := Step(y, e, flag);
            e.t in y'.told && y'.told[e.t] == if y'.m.owner == Some(e.t) then Ok else Timeout
  {}

  /** The release that ends an ownership makes the thread at the head of the list the owner,
      once, and leaves the others in place; with nobody waiting the mutex is free. */
  lemma HandsOverToTheHead(y: System, t: Tid, flag: Flag)
    requires Sound(y) && Enabled(y, ReleaseCall(t)) && y.m.owner == Some(t) && y.depth % HOLDS == 1
    ensures var y' := Step(y, ReleaseCall(t), flag);
            if y.m.waiters == [] then y'.m.owner == None && y'.woken == y.woken
            else
              var w := y.m.waiters[0];
              && y'.m.owner == Some(w) && y'.depth == 1 && y'.woken == y.woken[w := Ok]
              && y'.m.waiters == y.m.waiters[1..]
  {
    DepthBelow(y.depth);
  }

  /** The owner takes once more when the 8-bit counter is at its maximum. */
  predicate Wraps(y: System, e: Event) {
    e.TakeCall? && y.m.owner == Some(e.t) && y.m.hold == HOLDS - 1
  }

  /** From a state where hold is zero for a free mutex only, one event leads to another such
      state if and only if it does not wrap the counter. */
  lemma HoldTellsFreeUnlessWrapped(y: System, e: Event, flag: Flag)
    requires Sound(y) && y.depth < HOLDS && Enabled(y, e)
    ensures var y' := Step(y, e, flag); (y'.m.hold == 0 <==> y'.m.owner == None) <==> !Wraps(y, e)
    ensures !Wraps(y, e) ==> Step(y, e, flag).depth < HOLDS
  {
    StepKeepsSound(y, e, flag);
  }

  predicate NeverWraps(y: System, es: seq<Event>, flag: Flag)
    requires IsRun(y, es, flag)
    decreases |es|
  {
    es != [] ==> !Wraps(y, es[0]) && NeverWraps(Step(y, es[0], flag), es[1..], flag)
  }

  lemma {:induction false} HoldTellsFree(y: System, es: seq<Event>, flag: Flag)
    requires Sound(y) && y.depth < HOLDS && IsRun(y, es, flag) && NeverWraps(y, es, flag)
    ensures var m := After(y, es, flag).m; m.hold == 0 <==> m.owner == None
    decreases |es|
  {
    if es != [] {
      StepKeepsSound(y, es[0], flag);
      HoldTellsFreeUnlessWrapped(y, es[0], flag);
      HoldTellsFree(Step(y, es[0], flag), es[1..], flag);
    }
  }

  /** A free mutex that thread 1 takes n times. */
  function Takes(n: nat): seq<Event> {
    if n == 0 then [] else [TakeCall(1, -1)] + Takes(n - 1)
  }

  /** Thread 1 owns the mutex, depth deep, and nobody waits. */
  function Nested(depth: nat, prio: Priorities): System {
    System(Mutex(0, Some(1), depth % HOLDS, PriorityOf(prio, 1), [], prio), depth, map[], {}, map[1 := Ok], {})
  }

  lemma OneDeeper(depth: nat, prio: Priorities, flag: Flag)
    requires depth > 0
    ensures Enabled(Nested(depth, prio), TakeCall(1, -1))
    ensures Step(Nested(depth, prio), TakeCall(1, -1), flag) == Nested(depth + 1, prio)
  {}

  lemma {:induction false} TakesNest(depth: nat, n: nat, prio: Priorities, es: seq<Event>, flag: Flag)
    requires depth > 0 && IsRun(Nested(depth + n, prio), es, flag)
    ensures IsRun(Nested(depth, prio), Takes(n) + es, flag)
    ensures After(Nested(depth, prio), Takes(n) + es, flag) == After(Nested(depth + n, prio), es, flag)
    decreases n
  {
    hide Nested, Step, Enabled, IsRun, After;
    if n == 0 {
      assert Takes(n) + es == es;
    } else {
      OneDeeper(depth, prio, flag);
      TakesNest(depth + 1, n - 1, prio, es, flag);
      OneMore(Nested(depth, prio), TakeCall(1, -1), Takes(n - 1) + es, flag);
      assert Takes(n) + es == [TakeCall(1, -1)] + (Takes(n - 1) + es);
    }
  }

  lemma FirstOfMany(prio: Priorities, flag: Flag)
    ensures Enabled(Start(prio), TakeCall(1, -1)) && Step(Start(prio), TakeCall(1, -1), flag) == Nested(1, prio)
  {}

  lemma ReleaseFrees(prio: Priorities, flag: Flag)
    ensures Enabled(Nested(HOLDS + 1, prio), ReleaseCall(1))
    ensures Step(Nested(HOLDS + 1, prio), ReleaseCall(1), flag).m.owner == None
  {}

  lemma FromTheStart(n: nat, prio: Priorities, es: seq<Event>, flag: Flag)
    requires n > 0 && IsRun(Nested(n, prio), es, flag)
    ensures IsRun(Start(prio), Takes(n) + es, flag)
    ensures After(Start(prio), Takes(n) + es, flag) == After(Nested(n, prio), es, flag)
  {
    hide Nested, Step, Enabled, IsRun, After, Start;
    FirstOfMany(prio, flag);
    TakesNest(1, n - 1, prio, es, flag);
    OneMore(Start(prio), TakeCall(1, -1), Takes(n - 1) + es, flag);
    assert Takes(n) + es == [TakeCall(1, -1)] + (Takes(n - 1) + es);
  }

  /** The wrapping run: after 256 nested takes the mutex is owned with hold 0, and after one
      more a single release gives it up, 256 takes unreleased. */
  lemma WrappedHoldLosesTakes(prio: Priorities, flag: Flag)
    ensures IsRun(Start(prio), Takes(HOLDS), flag)
    ensures var m := After(Start(prio), Takes(HOLDS), flag).m; m.owner == Some(1) && m.hold == 0
    ensures IsRun(Start(prio), Takes(HOLDS + 1) + [ReleaseCall(1)], flag)
    ensures After(Start(prio), Takes(HOLDS + 1) + [ReleaseCall(1)], flag).m.owner == None
  {
    NoMore(Nested(HOLDS, prio), flag);
    FromTheStart(HOLDS, prio, [], flag);
    assert Takes(HOLDS) + [] == Takes(HOLDS);
    var y := Nested(HOLDS + 1, prio);
    ReleaseFrees(prio, flag);
    hide Step, Enabled, IsRun, After, Start, Takes;
    NoMore(Step(y, ReleaseCall(1), flag), flag);
    OneMore(y, ReleaseCall(1), [], flag);
    assert [ReleaseCall(1)] + [] == [ReleaseCall(1)];
    FromTheStart(HOLDS + 1, prio, [ReleaseCall(1)], flag);
  }

  /** The mutex leaves its owner on one event only: the owner's release at depth one, or one
      more than a multiple of 256. */
  lemma OnlyMatchingReleaseEnds(y: System, e: Event, flag: Flag, t: Tid)
    requires Sound(y) && Enabled(y, e) && y.m.owner == Some(t)
    ensures Step(y, e, flag).m.owner != Some(t) <==> e == ReleaseCall(t) && y.depth % HOLDS == 1
  {
    if e == ReleaseCall(t) {
      DepthBelow(y.depth);
    }
  }

  lemma DepthBelow(depth: nat)
    requires depth > 0
    ensures (depth % HOLDS + HOLDS - 1) % HOLDS == (depth - 1) % HOLDS
    ensures (depth - 1) % HOLDS == 0 <==> depth % HOLDS == 1
  {}

  /** Where the owner's takes and releases leave its depth, one event at a time. */
  function Nesting(d: int, e: Event, t: Tid): int {
    if e.TakeCall? && e.t == t then d + 1 else if e == ReleaseCall(t) then d - 1 else d
  }

  predicate StaysNested(d: int, es: seq<Event>, t: Tid)
    decreases |es|
  {
    1 <= d < HOLDS && (es != [] ==> StaysNested(Nesting(d, es[0], t), es[1..], t))
  }

  function NestingAfter(d: int, es: seq<Event>, t: Tid): int
    decreases |es|
  {
    if es == [] then d else NestingAfter(Nesting(d, es[0], t), es[1..], t)
  }

  /** Whatever the other threads do, an owner that nests at most 255 deep keeps the mutex
      until it has released as often as it took. */
  lemma {:induction false} OwnerKeepsUntilMatched(y: System, es: seq<Event>, flag: Flag, t: Tid)
    requires Sound(y) && IsRun(y, es, flag)
    requires y.m.owner == Some(t) && StaysNested(y.depth, es, t)
    ensures var y' := After(y, es, flag); y'.m.owner == Some(t) && y'.depth == NestingAfter(y.depth, es, t)
    decreases |es|
  {
    if es != [] {
      StepKeepsSound(y, es[0], flag);
      OnlyMatchingReleaseEnds(y, es[0], flag, t);
      assert StaysNested(Nesting(y.depth, es[0], t), es[1..], t);
      assert Step(y, es[0], flag).depth == Nesting(y.depth, es[0], t);
      OwnerKeepsUntilMatched(Step(y, es[0], flag), es[1..], flag, t);
    }
  }

  /** A thread that does not own the mutex gets an error and changes nothing. */
  lemma StrangersCannotRelease(y: System, t: Tid, flag: Flag)
    requires Running(y, t)
    ensures Release(y.m, t).1 == if y.m.owner == Some(t) then Ok else Error
    ensures y.m.owner != Some(t) ==> Step(y, ReleaseCall(t), flag) == y
  {}

  predicate NeverReleases(es: seq<Event>, t: Tid) {
    forall i :: 0 <= i < |es| ==> es[i] != ReleaseCall(t)
  }

  /** Until its owner itself releases, nothing the other threads do, and no number of their
      releases, takes the mutex away. */
  lemma {:induction false} StrangersCannotTakeAway(y: System, es: seq<Event>, flag: Flag, t: Tid)
    requires Sound(y) && IsRun(y, es, flag) && y.m.owner == Some(t) && NeverReleases(es, t)
    ensures After(y, es, flag).m.owner == Some(t)
    decreases |es|
  {
    if es != [] {
      StepKeepsSound(y, es[0], flag);
      OnlyMatchingReleaseEnds(y, es[0], flag, t);
      assert es[0] != ReleaseCall(t) && NeverReleases(es[1..], t);
      StrangersCannotTakeAway(Step(y, es[0], flag), es[1..], flag, t);
    }
  }

  // ----- Priority inheritance -----

  predicate PrioritiesAreOurs(es: seq<Event>) {
    forall i :: 0 <= i < |es| ==> !es[i].SetPriority?
  }

  /** Nobody waits for a less urgent owner. */
  ghost predicate Inherits(m: Mutex) {
    forall w :: w in m.waiters && m.owner.Some? ==> PriorityOf(m.prio, m.owner.value) <= PriorityOf(m.prio, w)
  }

  /** Every thread has its own priority, except an owner that has inherited a more urgent
      one; original remembers the owner's. */
  ghost predicate OnlyOwnerBoosted(m: Mutex, base: Priorities) {
    && (forall t: Tid :: m.owner != Some(t) ==> PriorityOf(m.prio, t) == PriorityOf(base, t))
    && (m.owner.Some? ==>
          && m.original == PriorityOf(base, m.owner.value)
          && PriorityOf(m.prio, m.owner.value) <= m.original)
  }

  /** Final release restores the priority the owner had on acquiring, and no other thread is
      ever touched, in either queueing mode. */
  lemma StepBoostsOnlyOwner(y: System, e: Event, flag: Flag, base: Priorities)
    requires Sound(y) && Enabled(y, e) && !e.SetPriority? && OnlyOwnerBoosted(y.m, base)
    ensures OnlyOwnerBoosted(Step(y, e, flag).m, base)
  {
    hide Sound, OnlyOwnerBoosted, Suspend, Unlink;
    match e
    case TakeCall(t, time) => TakeBoostsOnlyOwner(y, t, time, flag, base);
    case ReleaseCall(t) => ReleaseBoostsOnlyOwner(y, t, base);
    case Expiry(t) => BoostIgnoresWaiters(y.m, Expire(y.m, t), base);
    case Return(_) =>
    case SetPriority(_, _) =>
  }

  lemma BoostIgnoresWaiters(m: Mutex, m': Mutex, base: Priorities)
    requires m'.(waiters := []) == m.(waiters := [])
    ensures OnlyOwnerBoosted(m', base) <==> OnlyOwnerBoosted(m, base)
  {}

  lemma TakeBoostsOnlyOwner(y: System, t: Tid, time: int, flag: Flag, base: Priorities)
    requires Sound(y) && Running(y, t) && OnlyOwnerBoosted(y.m, base)
    ensures OnlyOwnerBoosted(StepTake(y, t, time, flag).m, base)
  {
    hide Suspend, Distinct;
  }

  lemma ReleaseBoostsOnlyOwner(y: System, t: Tid, base: Priorities)
    requires Sound(y) && OnlyOwnerBoosted(y.m, base)
    ensures OnlyOwnerBoosted(StepRelease(y, t).m, base)
  {
    hide Distinct;
  }

  lemma {:induction false} ReachableBoostsOnlyOwner(y: System, es: seq<Event>, flag: Flag, base: Priorities)
    requires Sound(y) && IsRun(y, es, flag) && PrioritiesAreOurs(es) && OnlyOwnerBoosted(y.m, base)
    ensures OnlyOwnerBoosted(After(y, es, flag).m, base)
    decreases |es|
  {
    if es != [] {
      StepKeepsSound(y, es[0], flag);
      StepBoostsOnlyOwner(y, es[0], flag, base);
      assert PrioritiesAreOurs(es[1..]);
      ReachableBoostsOnlyOwner(Step(y, es[0], flag), es[1..], flag, base);
    }
  }

  /** The owner's priority is the most urgent of its own and those of the threads that came to
      wait during its ownership. */
  ghost predicate BoostIsLeast(y: System, base: Priorities) {
    y.m.owner.Some? ==>
      var p, own := PriorityOf(y.m.prio, y.m.owner.value), PriorityOf(base, y.m.owner.value);
      && p <= own && (forall t :: t in y.came ==> p <= PriorityOf(base, t))
      && (p == own || exists t :: t in y.came && p == PriorityOf(base, t))
  }

  lemma StepKeepsBoostLeast(y: System, e: Event, flag: Flag, base: Priorities)
    requires Sound(y) && Enabled(y, e) && !e.SetPriority? && OnlyOwnerBoosted(y.m, base) && BoostIsLeast(y, base)
    ensures BoostIsLeast(Step(y, e, flag), base)
  {
    hide Suspend, Unlink, Distinct;
    var y' := Step(y, e, flag);
    if y'.m.owner.Some? && y'.m.owner == y.m.owner {
      assert forall t :: t in y.came ==> t in y'.came;
    }
  }

  /** Over every run without a priority set from outside, in either queueing mode: the owner's
      priority is exactly the most urgent of its own and of those that came to wait. */
  lemma {:induction false} ReachableBoostIsLeast(y: System, es: seq<Event>, flag: Flag, base: Priorities)
    requires Sound(y) && IsRun(y, es, flag) && PrioritiesAreOurs(es)
    requires OnlyOwnerBoosted(y.m, base) && BoostIsLeast(y, base)
    ensures BoostIsLeast(After(y, es, flag), base)
    decreases |es|
  {
    if es != [] {
      hide Sound, OnlyOwnerBoosted, BoostIsLeast, Step;
      StepKeepsSound(y, es[0], flag);
      StepBoostsOnlyOwner(y, es[0], flag, base);
      StepKeepsBoostLeast(y, es[0], flag, base);
      assert PrioritiesAreOurs(es[1..]);
      ReachableBoostIsLeast(Step(y, es[0], flag), es[1..], flag, base);
    }
  }

  /** Waiters have their own priorities, so boosting the owner does not reorder them. */
  lemma WaitersKeepPriorities(m: Mutex, t: Tid)
    requires m.owner.Some? ==> m.owner.value !in m.waiters
    ensures PrioritiesOf(Inherit(m, t), m.waiters) == PrioritiesOf(m.prio, m.waiters)
  {}

  lemma TakeKeepsInheritance(y: System, t: Tid, time: int, flag: Flag)
    requires Sound(y) && Running(y, t) && Inherits(y.m)
    ensures Inherits(Step(y, TakeCall(t, time), flag).m)
  {
    SuspendMembers(y.m.waiters, Inherit(y.m, t), t, flag);
  }

  lemma TakeKeepsOrder(y: System, t: Tid, time: int)
    requires Sound(y) && Running(y, t) && Sorted(PrioritiesOf(y.m.prio, y.m.waiters))
    ensures var m' := Step(y, TakeCall(t, time), Prio).m; Sorted(PrioritiesOf(m'.prio, m'.waiters))
  {
    WaitersKeepPriorities(y.m, t);
    SuspendKeepsOrder(y.m.waiters, Inherit(y.m, t), t);
    hide Suspend, Sorted, PrioritiesOf, Distinct, Inherit;
  }

  /** When the mutex changes hands, nobody waits for a less urgent owner afterwards if and
      only if the thread at the head was as urgent as any that waited. */
  lemma HandOverKeepsInheritanceIff(y: System, t: Tid)
    requires Sound(y) && Running(y, t) && y.m.owner == Some(t) && y.depth % HOLDS == 1 && y.m.waiters != []
    ensures Inherits(StepRelease(y, t).m)
       <==> forall w :: w in y.m.waiters ==> PriorityOf(y.m.prio, y.m.waiters[0]) <= PriorityOf(y.m.prio, w)
  {
    var ws, m' := y.m.waiters, StepRelease(y, t).m;
    DepthBelow(y.depth);
    assert ws == [ws[0]] + ws[1..];
    assert m'.waiters == ws[1..] && m'.owner == Some(ws[0]);
    assert forall w :: w in ws ==> PriorityOf(m'.prio, w) == PriorityOf(y.m.prio, w);
  }

  lemma ReleaseKeepsInheritance(y: System, t: Tid)
    requires Sound(y) && Running(y, t) && Inherits(y.m) && Sorted(PrioritiesOf(y.m.prio, y.m.waiters))
    ensures var m' := StepRelease(y, t).m; Inherits(m') && Sorted(PrioritiesOf(m'.prio, m'.waiters))
  {
    var ws, ps, m' := y.m.waiters, PrioritiesOf(y.m.prio, y.m.waiters), StepRelease(y, t).m;
    if y.m.owner == Some(t) && m'.owner != Some(t) && ws != [] {
      DepthBelow(y.depth);
      forall w | w in ws
        ensures PriorityOf(y.m.prio, ws[0]) <= PriorityOf(y.m.prio, w)
      {
        var i := IndexIn(ws, w);
        assert ps[0] <= ps[i];
      }
      HandOverKeepsInheritanceIff(y, t);
      LeavingKeepsOrder(y.m.prio, ws, 0);
      assert RemoveAt(ws, 0) == ws[1..] == m'.waiters;
      assert PrioritiesOf(m'.prio, ws[1..]) == PrioritiesOf(y.m.prio, ws[1..]);
    } else {
      assert PrioritiesOf(m'.prio, ws) == ps;
    }
  }

  lemma ExpiryKeepsInheritance(m: Mutex, t: Tid)
    requires t in m.waiters && Distinct(m.waiters) && Inherits(m) && Sorted(PrioritiesOf(m.prio, m.waiters))
    ensures Inherits(Expire(m, t)) && Sorted(PrioritiesOf(m.prio, Expire(m, t).waiters))
  {
    UnlinkMembers(m.waiters, t);
    LeavingKeepsOrder(m.prio, m.waiters, IndexIn(m.waiters, t));
  }

  /** With a priority-ordered queue and no priority set from outside, no reachable state has
      a thread waiting for a less urgent owner. */
  lemma {:induction false} NoInversion(y: System, es: seq<Event>)
    requires Sound(y) && IsRun(y, es, Prio) && PrioritiesAreOurs(es)
    requires Inherits(y.m) && Sorted(PrioritiesOf(y.m.prio, y.m.waiters))
    ensures Inherits(After(y, es, Prio).m)
    decreases |es|
  {
    if es != [] {
      match es[0] {
        case TakeCall(t, time) =>
          TakeKeepsInheritance(y, t, time, Prio);
          TakeKeepsOrder(y, t, time);
        case ReleaseCall(t) => ReleaseKeepsInheritance(y, t);
        case Expiry(t) => ExpiryKeepsInheritance(y.m, t);
        case Return(_) =>
        case SetPriority(_, _) =>
      }
      StepKeepsSound(y, es[0], Prio);
      assert !es[0].SetPriority? && PrioritiesAreOurs(es[1..]);
      NoInversion(Step(y, es[0], Prio), es[1..]);
    }
  }

  const THREE: Priorities := map[1 := 5, 2 := 20, 3 := 10]

  /** Thread 1 takes the mutex, 2 and 3 wait for it, 1 releases it. */
  const QUEUE_UP := [TakeCall(1, -1), TakeCall(2, -1), TakeCall(3, -1), ReleaseCall(1)]

  /** The same is false of a first-come queue: thread 3, of priority 10, is left waiting for
      thread 2, of priority 20. */
  lemma FifoLosesInheritance()
    ensures IsRun(Start(THREE), QUEUE_UP, Fifo) && PrioritiesAreOurs(QUEUE_UP)
    ensures !Inherits(After(Start(THREE), QUEUE_UP, Fifo).m)
  {
    hide Step, Enabled, IsRun, After, Inherits;
    var y1, y2, y3 := Queued([]), Queued([2]), Queued([2, 3]);
    FirstTake();
    SecondTake();
    ThirdTake();
    FinalRelease();
    NoMore(Step(y3, ReleaseCall(1), Fifo), Fifo);
    OneMore(y3, ReleaseCall(1), [], Fifo);
    var last := [ReleaseCall(1)] + [];
    OneMore(y2, TakeCall(3, -1), last, Fifo);
    OneMore(y1, TakeCall(2, -1), [TakeCall(3, -1)] + last, Fifo);
    OneMore(Start(THREE), TakeCall(1, -1), [TakeCall(2, -1)] + ([TakeCall(3, -1)] + last), Fifo);
    assert QUEUE_UP == [TakeCall(1, -1)] + ([TakeCall(2, -1)] + ([TakeCall(3, -1)] + last));
  }

  function Queued(ws: seq<Tid>): System {
    var waiting := set w | w in ws;
    System(Mutex(0, Some(1), 1, 5, ws, THREE), 1, map[], waiting, map[1 := Ok], waiting)
  }

  lemma FirstTake()
    ensures Enabled(Start(THREE), TakeCall(1, -1)) && Step(Start(THREE), TakeCall(1, -1), Fifo) == Queued([])
  {}

  lemma SecondTake()
    ensures Enabled(Queued([]), TakeCall(2, -1)) && Step(Queued([]), TakeCall(2, -1), Fifo) == Queued([2])
  {
    SuspendAppends([], THREE, 2);
  }

  lemma ThirdTake()
    ensures Enabled(Queued([2]), TakeCall(3, -1)) && Step(Queued([2]), TakeCall(3, -1), Fifo) == Queued([2, 3])
  {
    SuspendAppends([2], THREE, 3);
  }

  lemma FinalRelease()
    ensures Enabled(Queued([2, 3]), ReleaseCall(1))
    ensures !Inherits(Step(Queued([2, 3]), ReleaseCall(1), Fifo).m)
  {
    var m := Step(Queued([2, 3]), ReleaseCall(1), Fifo).m;
    assert m.owner == Some(2) && m.waiters == [3] && 3 in m.waiters;
  }

  lemma NoMore(y: System, flag: Flag)
    ensures IsRun(y, [], flag) && After(y, [], flag) == y
  {}

  lemma OneMore(y: System, e: Event, es: seq<Event>, flag: Flag)
    requires Enabled(y, e) && IsRun(Step(y, e, flag), es, flag)
    ensures IsRun(y, [e] + es, flag)
    ensures After(y, [e] + es, flag) == After(Step(y, e, flag), es, flag)
  {
    assert ([e] + es)[1..] == es;
  }
}
