/** What the callers of rt_mb_send_wait and rt_mb_recv are told. */
module MailboxAnswers {
  import opened Wrappers
  import opened WaitList
  import opened Mailboxes

  /** A pass through rt_mb_send_wait in a sound state: if every slot is taken the thread waits,
      unless its time is up and it is told that the mailbox is full; otherwise its mail goes in
      and it is told so. */
  lemma SendAnswers(y: System, t: Tid, v: Mail, left: int, flag: Flag, prio: Priorities)
    requires Sound(y) && t !in y.m.senders
    ensures var y' := Sent(y, t, v, left, flag, prio);
            var full := |y.m.Contents()| == y.m.Size();
            && (t in y'.m.senders <==> full && left != 0)
            && (t in y'.inside <==> full && left != 0)
            && (full && left != 0 ==> y'.answers == y.answers)
            && (full && left == 0 ==> y'.m == y.m && y'.answers == y.answers + [Failed(t, Full)])
            && (!full ==> y'.answers == y.answers + [SendOk(t, v)])
  {
    SuspendMembers(y.m.senders, prio, t, flag);
  }

  /** The same for rt_mb_recv and an empty mailbox. */
  lemma ReceiveAnswers(y: System, t: Tid, left: int, flag: Flag, prio: Priorities)
    requires Sound(y) && t !in y.m.receivers
    ensures var y' := Got(y, t, left, flag, prio);
            var empty := y.m.Contents() == [];
            && (t in y'.m.receivers <==> empty && left != 0)
            && (t in y'.inside <==> empty && left != 0)
            && (empty && left != 0 ==> y'.answers == y.answers)
            && (empty && left == 0 ==> y'.m == y.m && y'.answers == y.answers + [Failed(t, Timeout)])
            && (!empty ==> y'.answers == y.answers + [RecvOk(t, y.m.Contents()[0])])
  {
    SuspendMembers(y.m.receivers, prio, t, flag);
    if y.m.entry > 0 {
      FetchTakesOldest(y.m);
    }
  }

  /** A mail that goes in resumes the receiver at the head of its list, and one that comes out
      the sender at the head of the other. */
  lemma WakesTheHead(y: System, t: Tid, v: Mail, left: int, flag: Flag, prio: Priorities)
    requires y.m.Valid()
    ensures y.m.entry < y.m.Size() && y.m.receivers != [] ==>
              var y' := Sent(y, t, v, left, flag, prio);
              && y'.m.receivers == y.m.receivers[1..]
              && y'.resumedReceivers == y.resumedReceivers + {y.m.receivers[0]}
    ensures y.m.entry > 0 && y.m.senders != [] ==>
              var y' := Got(y, t, left, flag, prio);
              && y'.m.senders == y.m.senders[1..]
              && y'.resumedSenders == y.resumedSenders + {y.m.senders[0]}
  {}

  /** A reset empties the mailbox and fails every waiting thread of both lists. */
  lemma ResetFailsAll(y: System, flag: Flag)
    requires y.m.Valid()
    ensures var y' := Step(y, ResetCall, flag);
            && y'.m.Valid() && y'.m.Contents() == [] && y'.m.receivers == [] && y'.m.senders == []
            && y'.resumedReceivers == y.resumedReceivers && y'.resumedSenders == y.resumedSenders
            && forall t :: t in y.m.receivers || t in y.m.senders ==> t in y'.failed && y'.failed[t] == Error
  {}

  // ----- No thread is lost -----

  predicate Placed(y: System, t: Tid) {
    t in y.m.receivers || t in y.m.senders || t in y.resumedReceivers || t in y.resumedSenders
  }

  /** Every thread whose call has not returned waits in one of the lists, is resumed or has
      failed, and a failed one does neither of the others. */
  ghost predicate Accounted(y: System) {
    && (forall t :: t in y.inside <==> Placed(y, t) || t in y.failed)
    && (forall t :: t in y.failed ==> !Placed(y, t))
  }

  lemma SentKeepsAccounted(y: System, t: Tid, v: Mail, left: int, flag: Flag, prio: Priorities)
    requires Sound(y) && Accounted(y) && (t in y.resumedSenders || Idle(y, t))
    ensures Accounted(Sent(y, t, v, left, flag, prio))
  {
    hide NoLostWakeUp, Suspend;
    SuspendMembers(y.m.senders, prio, t, flag);
    TailMembers(y.m.receivers);
  }

  lemma GotKeepsAccounted(y: System, t: Tid, left: int, flag: Flag, prio: Priorities)
    requires Sound(y) && Accounted(y) && (t in y.resumedReceivers || Idle(y, t))
    ensures Accounted(Got(y, t, left, flag, prio))
  {
    hide NoLostWakeUp, Suspend;
    SuspendMembers(y.m.receivers, prio, t, flag);
    TailMembers(y.m.senders);
  }

  lemma OthersKeepAccounted(y: System, e: Event, flag: Flag)
    requires Sound(y) && y.m.Valid() && Accounted(y) && Enabled(y, e)
    requires e.Expiry? || e.ResetCall? || e.Return?
    ensures Accounted(Step(y, e, flag))
  {
    hide NoLostWakeUp, Unlink;
    if e.Expiry? && e.t in y.m.receivers {
      UnlinkMembers(y.m.receivers, e.t);
    } else if e.Expiry? {
      UnlinkMembers(y.m.senders, e.t);
    }
  }

  lemma SameAccounted(y: System, asked: map<Tid, Mail>)
    requires Accounted(y)
    ensures Accounted(y.(asked := asked))
  {
    assert forall t :: Placed(y.(asked := asked), t) <==> Placed(y, t);
  }

  /** In every interleaving a thread that called is in exactly one of these places until its
      call returns. */
  lemma {:induction false} ReachableIsAccounted(y: System, es: seq<Event>, flag: Flag)
    requires Sound(y) && Accounted(y) && IsRun(y, es, flag)
    ensures Accounted(After(y, es, flag))
    decreases |es|
  {
    if es != [] {
      hide Accounted, Sound, Sent, Got;
      StepKeepsSound(y, es[0], flag);
      match es[0] {
        case SendCall(t, v, left, prio) =>
          SentKeepsAccounted(y, t, v, left, flag, prio);
          SameAccounted(Sent(y, t, v, left, flag, prio), y.asked[t := v]);
        case RecvCall(t, left, prio) => GotKeepsAccounted(y, t, left, flag, prio);
        case SendAgain(t, left, prio) => SentKeepsAccounted(y, t, Asked(y, t), left, flag, prio);
        case RecvAgain(t, left, prio) => GotKeepsAccounted(y, t, left, flag, prio);
        case _ => OthersKeepAccounted(y, es[0], flag);
      }
      ReachableIsAccounted(Step(y, es[0], flag), es[1..], flag);
    }
  }

  lemma StartIsAccounted(pool: seq<Mail>)
    ensures Accounted(Start(pool))
  {}

  // ----- Whose mail it is -----

  /** The mail of the last call to send that this thread made. */
  function LastMail(es: seq<Event>, t: Tid): Option<Mail> {
    if es == [] then None
    else
      var e := es[|es| - 1];
      if e.SendCall? && e.t == t then Some(e.v) else LastMail(es[..|es| - 1], t)
  }

  ghost predicate Remembers(y: System, past: seq<Event>) {
    && (forall t :: LastMail(past, t) == if t in y.asked then Some(y.asked[t]) else None)
    && (forall t :: t in y.m.senders || t in y.resumedSenders ==> t in y.asked)
  }

  lemma LastMailOfOneMore(past: seq<Event>, e: Event, t: Tid)
    ensures LastMail(past + [e], t) == if e.SendCall? && e.t == t then Some(e.v) else LastMail(past, t)
  {
    assert (past + [e])[..|past|] == past;
  }

  lemma StepRemembers(y: System, e: Event, flag: Flag, past: seq<Event>)
    requires Sound(y) && y.m.Valid() && Enabled(y, e) && Remembers(y, past)
    ensures Remembers(Step(y, e, flag), past + [e])
  {
    hide LastMail, NoLostWakeUp, Mailbox.Valid, Suspend, Unlink;
    var y' := Step(y, e, flag);
    forall t
      ensures LastMail(past + [e], t) == if t in y'.asked then Some(y'.asked[t]) else None
    {
      LastMailOfOneMore(past, e, t);
    }
    TailMembers(y.m.senders);
    match e
    case SendCall(t, v, left, prio) => SuspendMembers(y.m.senders, prio, t, flag);
    case SendAgain(t, left, prio) => SuspendMembers(y.m.senders, prio, t, flag);
    case Expiry(t) =>
      if t !in y.m.receivers {
        UnlinkMembers(y.m.senders, t);
      }
    case _ =>
  }

  lemma {:induction false} ReachableRemembers(y: System, es: seq<Event>, flag: Flag, past: seq<Event>)
    requires Sound(y) && IsRun(y, es, flag) && Remembers(y, past)
    ensures Remembers(After(y, es, flag), past + es)
    decreases |es|
  {
    hide Remembers, Sound, Step;
    if es == [] {
      assert past + es == past;
    } else {
      StepKeepsSound(y, es[0], flag);
      StepRemembers(y, es[0], flag, past);
      ReachableRemembers(Step(y, es[0], flag), es[1..], flag, past + [es[0]]);
      assert past + [es[0]] + es[1..] == past + es;
    }
  }

  /** A thread told that its mail is sent has sent the mail of its last call, however often it
      waited and looked again in between. */
  lemma SendsWhatWasAsked(pool: seq<Mail>, es: seq<Event>, e: Event, flag: Flag, t: Tid, v: Mail)
    requires IsRun(Start(pool), es, flag) && After(Start(pool), es, flag).m.Valid()
    requires Enabled(After(Start(pool), es, flag), e)
    requires SendOk(t, v) in AnswersBy(After(Start(pool), es, flag), e, flag)
    ensures LastMail(es + [e], t) == Some(v)
  {
    var z := After(Start(pool), es, flag);
    assert Remembers(Start(pool), []);
    ReachableRemembers(Start(pool), es, flag, []);
    assert [] + es == es;
    hide *;
    StepSends(z, e, flag, es, t, v);
  }

  lemma StepSends(z: System, e: Event, flag: Flag, past: seq<Event>, t: Tid, v: Mail)
    requires z.m.Valid() && Enabled(z, e) && Remembers(z, past) && SendOk(t, v) in AnswersBy(z, e, flag)
    ensures LastMail(past + [e], t) == Some(v)
  {
    hide LastMail, TrySend, TryRecv, Mailbox.Valid;
    LastMailOfOneMore(past, e, t);
    assert e.SendCall? || e.SendAgain?;
  }
}
