/** rt_mb_*: a bounded queue of mails with waiting senders and receivers. */
module Mailboxes {

  import opened Wrappers
  import opened WaitList

  type Mail = nat

  datatype Mailbox = Mailbox(
    pool: seq<Mail>, entry: nat, inOffset: nat, outOffset: nat, receivers: seq<Tid>, senders: seq<Tid>)
  {
    function Size(): nat {
      |pool|
    }

    /** in_offset == (out_offset + entry) mod size, with entry within bounds. */
    ghost predicate Valid() {
      && entry <= Size()
      && (Size() == 0 ==> inOffset == 0 && outOffset == 0)
      && (Size() > 0 ==> outOffset < Size() && inOffset == (outOffset + entry) % Size())
    }

    /** The place in the pool k slots after out_offset. */
    ghost function Slot(k: nat): (i: nat)
      requires Size() > 0 && outOffset < Size() && k <= Size()
      ensures i < Size() && i == (outOffset + k) % Size()
    {
      Wrapped(outOffset + k, Size());
      if outOffset + k < Size() then outOffset + k else outOffset + k - Size()
    }

    /** The mails in order of delivery. */
    ghost function Contents(): (s: seq<Mail>)
      requires Valid()
      ensures |s| == entry
    {
      seq(entry, k requires 0 <= k < entry => pool[Slot(k)])
    }
  }

  /** What one pass through a call, up to rt_schedule, does; resumed is the thread it wakes. */
  datatype Outcome = Done(resumed: Option<Tid>) | Refused | Blocked

  function Init(pool: seq<Mail>): Mailbox {
    Mailbox(pool, 0, 0, 0, [], [])
  }

  function Advance(offset: nat, size: nat): nat {
    if offset + 1 >= size then 0 else offset + 1
  }

  function Head(ts: seq<Tid>): Option<Tid> {
    if ts == [] then None else Some(ts[0])
  }

  function Tail(ts: seq<Tid>): seq<Tid> {
    if ts == [] then [] else ts[1..]
  }

  /** The mail goes in and the first waiting receiver is resumed. */
  function Post(m: Mailbox, v: Mail): Mailbox
    requires m.inOffset < m.Size()
  {
    m.(pool := m.pool[m.inOffset := v], inOffset := Advance(m.inOffset, m.Size()), entry := m.entry + 1,
       receivers := Tail(m.receivers))
  }

  /** The oldest mail goes out and the first waiting sender is resumed. */
  function Fetch(m: Mailbox): Mailbox
    requires m.entry > 0
  {
    m.(outOffset := Advance(m.outOffset, m.Size()), entry := m.entry - 1, senders := Tail(m.senders))
  }

  /** rt_mb_send_wait from disabling interrupts, on entry or after a wake-up, to rt_schedule
      or return; left is what remains of the timeout. */
  function TrySend(m: Mailbox, t: Tid, v: Mail, left: int, flag: Flag, prio: Priorities): (Mailbox, Outcome)
    requires m.Valid()
  {
    if m.entry == m.Size() then
      if left == 0 then (m, Refused)
      else (m.(senders := Suspend(m.senders, prio, t, flag)), Blocked)
    else
      (Post(m, v), Done(Head(m.receivers)))
  }

  /** The same for rt_mb_recv. */
  function TryRecv(m: Mailbox, t: Tid, left: int, flag: Flag, prio: Priorities): (Mailbox, Outcome) {
    if m.entry == 0 then
      if left == 0 then (m, Refused)
      else (m.(receivers := Suspend(m.receivers, prio, t, flag)), Blocked)
    else
      (Fetch(m), Done(Head(m.senders)))
  }

  function Oldest(m: Mailbox): Mail
    requires m.Valid() && m.entry > 0
  {
    m.pool[m.outOffset]
  }

  function ExpireReceiver(m: Mailbox, t: Tid): Mailbox
    requires t in m.receivers
  {
    m.(receivers := Unlink(m.receivers, t))
  }

  function ExpireSender(m: Mailbox, t: Tid): Mailbox
    requires t in m.senders
  {
    m.(senders := Unlink(m.senders, t))
  }

  /** rt_mb_control with RT_IPC_CMD_RESET. */
  function Reset(m: Mailbox): Mailbox {
    Mailbox(m.pool, 0, 0, 0, [], [])
  }

  // ----- The ring is a bounded queue -----

  lemma Wrapped(a: nat, n: nat)
    requires n > 0 && a < 2 * n
    ensures a % n == if a < n then a else a - n
  {}

  lemma PostAppends(m: Mailbox, v: Mail)
    requires m.Valid() && m.entry < m.Size()
    ensures m.inOffset < m.Size()
    ensures Post(m, v).Valid() && Post(m, v).Contents() == m.Contents() + [v]
  {
    var m' := Post(m, v);
    assert m.inOffset == m.Slot(m.entry) && m'.inOffset == m'.Slot(m'.entry);
    assert forall k :: 0 <= k < m.entry ==> m'.pool[m'.Slot(k)] == m.pool[m.Slot(k)];
    assert m'.Contents()[m.entry] == v;
  }

  lemma FetchTakesOldest(m: Mailbox)
    requires m.Valid() && m.entry > 0
    ensures Fetch(m).Valid() && m.Contents() == [Oldest(m)] + Fetch(m).Contents()
  {
    var m' := Fetch(m);
    assert m.inOffset == m.Slot(m.entry) == m'.Slot(m'.entry);
    assert forall k :: 0 < k < m.entry ==> m.Slot(k) == m'.Slot(k - 1);
    assert m.Slot(0) == m.outOffset;
  }

  // ----- Runs -----

  /** What a call tells its caller. */
  datatype Answer =
    | SendOk(t: Tid, v: Mail)
    | RecvOk(t: Tid, v: Mail)
    | Failed(t: Tid, error: Err)

  /** Resumed threads have not yet looked at the mailbox again; failed threads will only
      return. asked holds the mail of each thread's last call to send; answers are what the
      calls returned so far, and inside are the threads whose call has not returned. */
  datatype System = System(
    m: Mailbox, resumedReceivers: set<Tid>, resumedSenders: set<Tid>, failed: map<Tid, Err>,
    asked: map<Tid, Mail>, answers: seq<Answer>, inside: set<Tid>)

  datatype Event =
    | SendCall(t: Tid, v: Mail, left: int, prio: Priorities)
    | RecvCall(t: Tid, left: int, prio: Priorities)
    | SendAgain(t: Tid, left: int, prio: Priorities)
    | RecvAgain(t: Tid, left: int, prio: Priorities)
    | Expiry(t: Tid)
    | ResetCall
    | Return(t: Tid)

  predicate Idle(y: System, t: Tid) {
    && t !in y.m.receivers && t !in y.m.senders
    && t !in y.resumedReceivers && t !in y.resumedSenders && t !in y.failed
  }

  predicate Enabled(y: System, e: Event) {
    match e
    case SendCall(t, _, _, _) => Idle(y, t)
    case RecvCall(t, _, _) => Idle(y, t)
    case SendAgain(t, _, _) => t in y.resumedSenders
    case RecvAgain(t, _, _) => t in y.resumedReceivers
    case Expiry(t) => t in y.m.receivers || t in y.m.senders
    case ResetCall => true
    case Return(t) => t in y.failed
  }

  function Resumed(o: Outcome): set<Tid> {
    if o.Done? && o.resumed.Some? then {o.resumed.value} else {}
  }

  function SendAnswer(o: Outcome, t: Tid, v: Mail): seq<Answer> {
    match o
    case Blocked => []
    case Refused => [Failed(t, Full)]
    case Done(_) => [SendOk(t, v)]
  }

  function RecvAnswer(o: Outcome, t: Tid, m: Mailbox): seq<Answer>
    requires m.Valid() && (o.Done? ==> m.entry > 0)
  {
    match o
    case Blocked => []
    case Refused => [Failed(t, Timeout)]
    case Done(_) => [RecvOk(t, Oldest(m))]
  }

  function Sent(y: System, t: Tid, v: Mail, left: int, flag: Flag, prio: Priorities): System
    requires y.m.Valid()
  {
    var (m, o) := TrySend(y.m, t, v, left, flag, prio);
    y.(m := m, resumedReceivers := y.resumedReceivers + Resumed(o), resumedSenders := y.resumedSenders - {t},
       answers := y.answers + SendAnswer(o, t, v),
       inside := if o.Blocked? then y.inside + {t} else y.inside - {t})
  }

  function Got(y: System, t: Tid, left: int, flag: Flag, prio: Priorities): System
    requires y.m.Valid()
  {
    var (m, o) := TryRecv(y.m, t, left, flag, prio);
    y.(m := m, resumedReceivers := y.resumedReceivers - {t}, resumedSenders := y.resumedSenders + Resumed(o),
       answers := y.answers + RecvAnswer(o, t, y.m),
       inside := if o.Blocked? then y.inside + {t} else y.inside - {t})
  }

  function Asked(y: System, t: Tid): Mail {
    if t in y.asked then y.asked[t] else 0
  }

  function Fail(failed: map<Tid, Err>, ts: seq<Tid>): map<Tid, Err> {
    map t | t in failed.Keys + (set u | u in ts) :: if t in ts then Error else failed[t]
  }

  function Step(y: System, e: Event, flag: Flag): System
    requires Enabled(y, e) && y.m.Valid()
  {
    match e
    case SendCall(t, v, left, prio) => Sent(y, t, v, left, flag, prio).(asked := y.asked[t := v])
    case RecvCall(t, left, prio) => Got(y, t, left, flag, prio)
    case SendAgain(t, left, prio) => Sent(y, t, Asked(y, t), left, flag, prio)
    case RecvAgain(t, left, prio) => Got(y, t, left, flag, prio)
    case Expiry(t) =>
      y.(m := if t in y.m.receivers then ExpireReceiver(y.m, t) else ExpireSender(y.m, t),
         failed := y.failed[t := Timeout])
    case ResetCall => y.(m := Reset(y.m), failed := Fail(y.failed, y.m.receivers + y.m.senders))
    case Return(t) =>
      y.(failed := y.failed - {t}, inside := y.inside - {t}, answers := y.answers + [Failed(t, y.failed[t])])
  }

  /** No thread is in two places at once. */
  ghost predicate Apart(y: System) {
    && Distinct(y.m.receivers) && Distinct(y.m.senders)
    && (forall t :: t in y.m.receivers ==> t !in y.m.senders && t !in y.resumedReceivers && t !in y.resumedSenders)
    && (forall t :: t in y.m.senders ==> t !in y.resumedReceivers && t !in y.resumedSenders)
    && y.resumedReceivers !! y.resumedSenders
  }

  /** A receiver waits only while every mail there is has a resumed receiver coming for it,
      and a sender only while every free slot has a resumed sender coming for it. */
  ghost predicate NoLostWakeUp(y: System) {
    && (y.m.receivers != [] ==> y.m.entry <= |y.resumedReceivers|)
    && (y.m.senders != [] ==> y.m.Size() - y.m.entry <= |y.resumedSenders|)
  }

  ghost predicate Sound(y: System) {
    y.m.Valid() && Apart(y) && NoLostWakeUp(y)
  }

  /** rt_mb_init. */
  function Start(pool: seq<Mail>): (y: System)
    ensures Sound(y)
  {
    System(Init(pool), {}, {}, map[], map[], [], {})
  }

  lemma TailMembers(ts: seq<Tid>)
    requires Distinct(ts)
    ensures Distinct(Tail(ts)) && forall t :: t in Tail(ts) <==> t in ts && Head(ts) != Some(t)
  {
    if ts != [] {
      RemoveDistinct(ts, 0);
      assert RemoveAt(ts, 0) == ts[1..];
    }
  }

  lemma SameSound(y: System, y': System)
    requires y.m == y'.m && y.resumedReceivers == y'.resumedReceivers && y.resumedSenders == y'.resumedSenders
    requires Sound(y)
    ensures Sound(y')
  {}

  lemma SentKeepsSound(y: System, t: Tid, v: Mail, left: int, flag: Flag, prio: Priorities)
    requires Sound(y) && (t in y.resumedSenders || Idle(y, t))
    ensures Sound(Sent(y, t, v, left, flag, prio))
  {
    if y.m.entry < y.m.Size() {
      PostAppends(y.m, v);
      TailMembers(y.m.receivers);
    } else {
      SuspendMembers(y.m.senders, prio, t, flag);
    }
  }

  lemma GotKeepsSound(y: System, t: Tid, left: int, flag: Flag, prio: Priorities)
    requires Sound(y) && (t in y.resumedReceivers || Idle(y, t))
    ensures Sound(Got(y, t, left, flag, prio))
  {
    if y.m.entry > 0 {
      FetchTakesOldest(y.m);
      TailMembers(y.m.senders);
    } else {
      SuspendMembers(y.m.receivers, prio, t, flag);
    }
  }

  lemma ExpiryKeepsSound(y: System, t: Tid, flag: Flag)
    requires Sound(y) && Enabled(y, Expiry(t))
    ensures Sound(Step(y, Expiry(t), flag))
  {
    hide Unlink;
    if t in y.m.receivers {
      UnlinkMembers(y.m.receivers, t);
    } else {
      UnlinkMembers(y.m.senders, t);
    }
  }

  lemma ResetKeepsSound(y: System, flag: Flag)
    requires Sound(y)
    ensures Sound(Step(y, ResetCall, flag))
  {}

  lemma ReturnKeepsSound(y: System, t: Tid, flag: Flag)
    requires Sound(y) && t in y.failed
    ensures Sound(Step(y, Return(t), flag))
  {
    hide Distinct;
  }

  lemma StepKeepsSound(y: System, e: Event, flag: Flag)
    requires Sound(y) && y.m.Valid() && Enabled(y, e)
    ensures Sound(Step(y, e, flag))
  {
    hide Sound, Sent, Got;
    match e
    case SendCall(t, v, left, prio) =>
      SentKeepsSound(y, t, v, left, flag, prio);
      SameSound(Sent(y, t, v, left, flag, prio), Step(y, e, flag));
    case RecvCall(t, left, prio) => GotKeepsSound(y, t, left, flag, prio);
    case SendAgain(t, left, prio) => SentKeepsSound(y, t, Asked(y, t), left, flag, prio);
    case RecvAgain(t, left, prio) => GotKeepsSound(y, t, left, flag, prio);
    case Expiry(t) => ExpiryKeepsSound(y, t, flag);
    case ResetCall => ResetKeepsSound(y, flag);
    case Return(t) => ReturnKeepsSound(y, t, flag);
  }

  ghost predicate IsRun(y: System, es: seq<Event>, flag: Flag)
    decreases |es|
  {
    y.m.Valid() && (es != [] ==> Enabled(y, es[0]) && IsRun(Step(y, es[0], flag), es[1..], flag))
  }

  ghost function After(y: System, es: seq<Event>, flag: Flag): System
    requires IsRun(y, es, flag)
    decreases |es|
  {
    if es == [] then y else After(Step(y, es[0], flag), es[1..], flag)
  }

  /** No wake-up is lost in any interleaving of sends, receives, timeouts, resets and
      re-checks, and the ring stays a queue. */
  lemma {:induction false} ReachableIsSound(y: System, es: seq<Event>, flag: Flag)
    requires Sound(y) && IsRun(y, es, flag)
    ensures Sound(After(y, es, flag))
    ensures var z := After(y, es, flag);
            && z.m.Valid()
            && (z.m.receivers != [] ==> z.m.entry <= |z.resumedReceivers|)
            && (z.m.senders != [] ==> z.m.Size() - z.m.entry <= |z.resumedSenders|)
    decreases |es|
  {
    if es != [] {
      StepKeepsSound(y, es[0], flag);
      ReachableIsSound(Step(y, es[0], flag), es[1..], flag);
    }
  }

  /** Once every resumed thread has looked again, receivers wait only on an empty mailbox
      and senders only on a full one. */
  lemma NobodyIsStuck(y: System, es: seq<Event>, flag: Flag)
    requires Sound(y) && IsRun(y, es, flag)
    ensures var z := After(y, es, flag);
            && z.m.Valid()
            && (z.m.receivers != [] && z.resumedReceivers == {} ==> z.m.Contents() == [])
            && (z.m.senders != [] && z.resumedSenders == {} ==> |z.m.Contents()| == z.m.Size())
  {
    ReachableIsSound(y, es, flag);
  }

  // ----- What goes in comes out -----

  /** The mails of the sends that were answered with RT_EOK, and those that receives
      delivered, in order of answer. */
  function SentMails(answers: seq<Answer>): seq<Mail> {
    if answers == [] then []
    else (if answers[0].SendOk? then [answers[0].v] else []) + SentMails(answers[1..])
  }

  function GotMails(answers: seq<Answer>): seq<Mail> {
    if answers == [] then []
    else (if answers[0].RecvOk? then [answers[0].v] else []) + GotMails(answers[1..])
  }

  lemma RegroupMails(a: seq<Mail>, b: seq<Mail>, c: seq<Mail>)
    ensures (a + b) + c == a + (b + c)
  {}

  lemma {:induction false} SentMailsOfConcat(a: seq<Answer>, b: seq<Answer>)
    ensures SentMails(a + b) == SentMails(a) + SentMails(b)
  {
    if a == [] {
      assert a + b == b;
    } else {
      SentMailsOfConcat(a[1..], b);
      assert (a + b)[1..] == a[1..] + b;
      RegroupMails(if a[0].SendOk? then [a[0].v] else [], SentMails(a[1..]), SentMails(b));
    }
  }

  lemma {:induction false} GotMailsOfConcat(a: seq<Answer>, b: seq<Answer>)
    ensures GotMails(a + b) == GotMails(a) + GotMails(b)
  {
    if a == [] {
      assert a + b == b;
    } else {
      GotMailsOfConcat(a[1..], b);
      assert (a + b)[1..] == a[1..] + b;
      RegroupMails(if a[0].RecvOk? then [a[0].v] else [], GotMails(a[1..]), GotMails(b));
    }
  }

  predicate NeverReset(es: seq<Event>) {
    forall i :: 0 <= i < |es| ==> !es[i].ResetCall?
  }

  /** The places and counts the contents depend on. */
  predicate SameMails(m: Mailbox, m': Mailbox) {
    m.(receivers := [], senders := []) == m'.(receivers := [], senders := [])
  }

  lemma SameMailsSameContents(m: Mailbox, m': Mailbox)
    requires m.Valid() && SameMails(m, m')
    ensures m'.Valid() && m'.Contents() == m.Contents()
  {
    assert m'.Valid();
    assert forall k :: 0 <= k < m.entry ==> m'.Slot(k) == m.Slot(k);
  }

  /** What this event answers. */
  function AnswersBy(y: System, e: Event, flag: Flag): (a: seq<Answer>)
    requires y.m.Valid() && Enabled(y, e)
    ensures Step(y, e, flag).answers == y.answers + a
  {
    Step(y, e, flag).answers[|y.answers|..]
  }

  lemma MailsOfOne(a: Answer)
    ensures SentMails([]) == [] && GotMails([]) == []
    ensures SentMails([a]) == (if a.SendOk? then [a.v] else []) && GotMails([a]) == if a.RecvOk? then [a.v] else []
  {}

  lemma StepMovesMail(y: System, e: Event, flag: Flag)
    requires y.m.Valid() && Enabled(y, e) && !e.ResetCall?
    ensures Step(y, e, flag).m.Valid()
    ensures y.m.Contents() + SentMails(AnswersBy(y, e, flag))
         == GotMails(AnswersBy(y, e, flag)) + Step(y, e, flag).m.Contents()
  {
    hide Suspend, Unlink, Fail, SentMails, GotMails;
    var c, a := y.m.Contents(), AnswersBy(y, e, flag);
    assert c + [] == [] + c == c;
    MailsOfOne(if a == [] then Failed(0, Ok) else a[0]);
    if (e.SendCall? || e.SendAgain?) && y.m.entry < y.m.Size() {
      PostAppends(y.m, if e.SendCall? then e.v else Asked(y, e.t));
    } else if (e.RecvCall? || e.RecvAgain?) && y.m.entry > 0 {
      FetchTakesOldest(y.m);
    } else {
      SameMailsSameContents(y.m, Step(y, e, flag).m);
    }
  }

  ghost function Answers(y: System, es: seq<Event>, flag: Flag): seq<Answer>
    requires IsRun(y, es, flag)
    decreases |es|
  {
    if es == [] then [] else AnswersBy(y, es[0], flag) + Answers(Step(y, es[0], flag), es[1..], flag)
  }

  lemma {:induction false} AnswersAccumulate(y: System, es: seq<Event>, flag: Flag)
    requires IsRun(y, es, flag)
    ensures After(y, es, flag).answers == y.answers + Answers(y, es, flag)
    decreases |es|
  {
    if es == [] {
      assert y.answers + [] == y.answers;
    } else {
      hide Step, AnswersBy;
      var y' := Step(y, es[0], flag);
      AnswersAccumulate(y', es[1..], flag);
      Regroup(y.answers, AnswersBy(y, es[0], flag), Answers(y', es[1..], flag));
    }
  }

  lemma Regroup(a: seq<Answer>, b: seq<Answer>, c: seq<Answer>)
    ensures (a + b) + c == a + (b + c)
  {}

  lemma MailsOfBoth(s: seq<Mail>, a: seq<Answer>, m: seq<Mail>, b: seq<Answer>, e: seq<Mail>)
    requires s + SentMails(a) == GotMails(a) + m && m + SentMails(b) == GotMails(b) + e
    ensures s + SentMails(a + b) == GotMails(a + b) + e
  {
    hide SentMails, GotMails;
    SentMailsOfConcat(a, b);
    GotMailsOfConcat(a, b);
    Rearrange(s, SentMails(a), SentMails(b), GotMails(a), m, GotMails(b), e);
  }

  /** Mails are received in the order in which they were sent, each once: what was there and
      what senders were told is sent is what receivers were given and what is left. */
  lemma {:induction false} FirstInFirstOut(y: System, es: seq<Event>, flag: Flag)
    requires Sound(y) && IsRun(y, es, flag) && NeverReset(es)
    ensures var z, answers := After(y, es, flag), Answers(y, es, flag);
            && z.m.Valid() && z.answers == y.answers + answers
            && y.m.Contents() + SentMails(answers) == GotMails(answers) + z.m.Contents()
    decreases |es|
  {
    AnswersAccumulate(y, es, flag);
    hide Sound, Step, AnswersBy, Mailbox.Contents, SentMails, GotMails;
    if es == [] {
      MailsOfOne(Failed(0, Ok));
      assert y.m.Contents() + [] == [] + y.m.Contents();
    } else {
      var y' := Step(y, es[0], flag);
      StepKeepsSound(y, es[0], flag);
      StepMovesMail(y, es[0], flag);
      assert NeverReset(es[1..]);
      FirstInFirstOut(y', es[1..], flag);
      MailsOfBoth(y.m.Contents(), AnswersBy(y, es[0], flag), y'.m.Contents(), Answers(y', es[1..], flag),
                  After(y', es[1..], flag).m.Contents());
    }
  }

  lemma Rearrange(s: seq<Mail>, p: seq<Mail>, ps: seq<Mail>, f: seq<Mail>, m: seq<Mail>, fs: seq<Mail>, e: seq<Mail>)
    requires s + p == f + m && m + ps == fs + e
    ensures s + (p + ps) == f + fs + e
  {
    calc {
      s + (p + ps);
      (s + p) + ps;
      f + (m + ps);
      f + fs + e;
    }
  }
}
