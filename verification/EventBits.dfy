/** Which bits an event set holds, bit by bit, and who gets them. */
module EventBits {
  import opened WaitList
  import opened EventSets

  predicate IsBit(b: bv32) {
    b != 0 && b & (b - 1) == 0
  }

  predicate Holds(s: bv32, b: bv32) {
    s & b != 0
  }

  lemma BitOfUnion(x: bv32, y: bv32, b: bv32)
    ensures Holds(Union(x, y), b) <==> Holds(x, b) || Holds(y, b)
  {
    assert (x | y) & b == (x & b) | (y & b);
    EmptyUnion(x & b, y & b);
  }

  lemma EmptyUnion(x: bv32, y: bv32)
    ensures x | y == 0 <==> x == 0 && y == 0
  {}

  /** A set holds all of a bit or nothing of it. */
  lemma AllOrNothing(x: bv32, b: bv32)
    requires IsBit(b)
    ensures if Holds(x, b) then x & b == b else x & b == 0
  {}

  lemma BitOfWithout(x: bv32, y: bv32, b: bv32)
    requires IsBit(b)
    ensures Holds(Without(x, y), b) <==> Holds(x, b) && !Holds(y, b)
  {
    AllOrNothing(x, b);
    AllOrNothing(y, b);
    MaskWithout(x, y, b);
  }

  lemma MaskWithout(x: bv32, y: bv32, b: bv32)
    ensures (x & !y) & b == (x & b) & !(y & b)
    ensures b & !b == 0 && 0 & !b == 0
  {}

  lemma BitOfCommon(x: bv32, y: bv32, b: bv32)
    requires IsBit(b)
    ensures Holds(Common(x, y), b) <==> Holds(x, b) && Holds(y, b)
  {
    AllOrNothing(x, b);
    AllOrNothing(y, b);
    MaskCommon(x, y, b);
  }

  lemma MaskCommon(x: bv32, y: bv32, b: bv32)
    ensures x & b == 0 || y & b == 0 ==> (x & y) & b == 0
    ensures x & b == b && y & b == b ==> (x & y) & b == b
  {}

  lemma NoBitOfNothing(b: bv32)
    ensures !Holds(0, b)
  {}

  /** A set that is not empty holds its lowest bit. */
  function LowestBit(s: bv32): (b: bv32)
    requires s != 0
    ensures IsBit(b) && Holds(s, b)
  {
    s & (0 - s)
  }

  lemma SameBits(x: bv32, y: bv32)
    requires forall b :: IsBit(b) ==> (Holds(x, b) <==> Holds(y, b))
    ensures x == y
  {
    if Without(x, y) != 0 {
      var b := LowestBit(Without(x, y));
      BitOfWithout(x, y, b);
      assert false;
    }
    if Without(y, x) != 0 {
      var b := LowestBit(Without(y, x));
      BitOfWithout(y, x, b);
      assert false;
    }
    NothingElse(x, y);
  }

  lemma NothingElse(x: bv32, y: bv32)
    requires Without(x, y) == 0 && Without(y, x) == 0
    ensures x == y
  {}

  // ----- When a request is met -----

  /** With AND a request is met when every bit asked for is there, and with OR alone when
      some bit asked for is; without either it never is. */
  lemma SatisfiedBitwise(pending: bv32, w: Want)
    ensures Has(w.option, AND_FLAG) ==>
              (Satisfied(pending, w) <==> forall b :: IsBit(b) && Holds(w.bits, b) ==> Holds(pending, b))
    ensures !Has(w.option, AND_FLAG) && Has(w.option, OR_FLAG) ==>
              (Satisfied(pending, w) <==> exists b :: IsBit(b) && Holds(w.bits, b) && Holds(pending, b))
    ensures !Has(w.option, AND_FLAG) && !Has(w.option, OR_FLAG) ==> !Satisfied(pending, w)
  {
    hide Within, Has, Holds, IsBit, Common, Without;
    forall b | IsBit(b)
      ensures Holds(Without(w.bits, pending), b) <==> Holds(w.bits, b) && !Holds(pending, b)
      ensures Holds(Common(w.bits, pending), b) <==> Holds(w.bits, b) && Holds(pending, b)
      ensures !Holds(0, b)
    {
      BitOfWithout(w.bits, pending, b);
      BitOfCommon(w.bits, pending, b);
      NoBitOfNothing(b);
    }
    WithinByWithout(w.bits, pending);
    if Without(w.bits, pending) != 0 {
      var b := LowestBit(Without(w.bits, pending));
    }
    if Common(w.bits, pending) != 0 {
      var b := LowestBit(Common(w.bits, pending));
    }
  }

  lemma WithinByWithout(a: bv32, b: bv32)
    ensures Within(a, b) <==> Without(a, b) == 0
  {}

  // ----- What a send leaves in the set -----

  /** The bits with which those of these threads left that asked for CLEAR. */
  function ClearedBy(ts: seq<Tid>, e: EventSet, e': EventSet): bv32 {
    if ts == [] then 0
    else
      var cleared := ts[0] !in e'.waiters && Has(WantOf(e, ts[0]).option, CLEAR_FLAG);
      var mine := if cleared then WantOf(e', ts[0]).bits else 0;
      Union(mine, ClearedBy(ts[1..], e, e'))
  }

  lemma SweepEnds(e: EventSet)
    ensures Sweep(e, |e.waiters|) == e
  {}

  lemma SweepOnce(e: EventSet, i: nat)
    requires i < |e.waiters|
    ensures Sweep(e, i)
         == if Satisfied(e.pending, WantOf(e, e.waiters[i])) then Sweep(Wake(e, i), i) else Sweep(e, i + 1)
  {
    hide Satisfied;
  }

  lemma WakeOne(e: EventSet, i: nat)
    requires i < |e.waiters| && Distinct(e.waiters)
    ensures var f, t := Wake(e, i), e.waiters[i];
            && f.waiters == RemoveAt(e.waiters, i) && Distinct(f.waiters) && t !in f.waiters
            && (forall u :: u != t ==> WantOf(f, u) == WantOf(e, u))
            && (forall u :: u in f.waiters <==> u in e.waiters && u != t)
  {
    RemoveDistinct(e.waiters, i);
  }

  /** The walk touches only threads from place i on, and leaves those it passes alone. */
  lemma {:induction false} SweepLeavesOthers(e: EventSet, i: nat, t: Tid)
    requires i <= |e.waiters| && Distinct(e.waiters) && t !in e.waiters[i..]
    ensures var f := Sweep(e, i); WantOf(f, t) == WantOf(e, t) && (t in f.waiters <==> t in e.waiters)
    decreases |e.waiters| - i
  {
    hide Satisfied, Taken, Consume;
    if i < |e.waiters| {
      assert e.waiters[i] in e.waiters[i..];
      assert e.waiters[i..][1..] == e.waiters[i + 1..];
      if Satisfied(e.pending, WantOf(e, e.waiters[i])) {
        RemoveDistinct(e.waiters, i);
        assert Wake(e, i).waiters[i..] == e.waiters[i + 1..];
        SweepLeavesOthers(Wake(e, i), i, t);
      } else {
        SweepLeavesOthers(e, i + 1, t);
      }
    }
  }

  lemma {:induction false} SameCleared(ts: seq<Tid>, d: EventSet, e: EventSet, f: EventSet)
    requires forall i :: 0 <= i < |ts| ==> WantOf(d, ts[i]) == WantOf(e, ts[i])
    ensures ClearedBy(ts, d, f) == ClearedBy(ts, e, f)
  {
    if ts != [] {
      assert forall i :: 0 <= i < |ts[1..]| ==> ts[1..][i] == ts[i + 1];
      SameCleared(ts[1..], d, e, f);
    }
  }

  /** a and b have no bit in common and make up c. */
  predicate Splits(c: bv32, a: bv32, b: bv32) {
    a | b == c && a & b == 0
  }

  lemma SplitAgain(c: bv32, rest: bv32, mine: bv32, left: bv32, cleared: bv32)
    requires Splits(c, rest, mine) && Splits(rest, left, cleared)
    ensures Splits(c, left, Union(mine, cleared))
  {}

  lemma SplitNothing(c: bv32)
    ensures Splits(c, c, 0) && Union(0, c) == c
  {}

  /** What one waiter takes out of the set. */
  lemma ConsumeSplits(pending: bv32, w: Want)
    requires Satisfied(pending, w)
    ensures var mine := if Has(w.option, CLEAR_FLAG) then Taken(pending, w) else 0;
            Splits(pending, Consume(pending, Taken(pending, w), w.option), mine)
  {
    hide Has;
    SplitNothing(pending);
    SplitOff(pending, w.bits);
    CommonCommutes(pending, w.bits);
    hide Common, Without, Splits;
  }

  lemma SplitOff(c: bv32, b: bv32)
    ensures Splits(c, Without(c, Common(c, b)), Common(c, b))
    ensures Within(b, c) ==> Common(c, b) == b
  {}

  lemma {:induction false} SweepSplits(e: EventSet, i: nat)
    requires i <= |e.waiters| && Distinct(e.waiters)
    ensures Splits(e.pending, Sweep(e, i).pending, ClearedBy(e.waiters[i..], e, Sweep(e, i)))
    decreases |e.waiters| - i
  {
    hide Satisfied, Taken, Consume, Splits, Has, Union, Wake, Sweep;
    SplitNothing(e.pending);
    SweepEnds(e);
    if i < |e.waiters| {
      var ws, f := e.waiters, Sweep(e, i);
      var t, rest := ws[i], ws[i + 1..];
      assert ws[i..] == [t] + rest && ws[i..][1..] == rest && t !in rest;
      SweepOnce(e, i);
      if Satisfied(e.pending, WantOf(e, t)) {
        WakeOne(e, i);
        var e1 := Wake(e, i);
        assert e1.waiters[i..] == rest;
        SweepSplits(e1, i);
        SweepLeavesOthers(e1, i, t);
        SameCleared(rest, e, e1, f);
        WakeSplits(e, i, f, ClearedBy(rest, e, f));
      } else {
        SweepSplits(e, i + 1);
        SweepLeavesOthers(e, i + 1, t);
        SplitNothing(ClearedBy(rest, e, f));
      }
    }
  }

  lemma WakeSplits(e: EventSet, i: nat, f: EventSet, cleared: bv32)
    requires i < |e.waiters| && Satisfied(e.pending, WantOf(e, e.waiters[i]))
    requires var t := e.waiters[i]; t !in f.waiters && WantOf(f, t) == WantOf(Wake(e, i), t)
    requires Splits(Wake(e, i).pending, f.pending, cleared)
    ensures var t := e.waiters[i];
            var mine := if Has(WantOf(e, t).option, CLEAR_FLAG) then WantOf(f, t).bits else 0;
            Splits(e.pending, f.pending, Union(mine, cleared))
  {
    hide Satisfied, Taken, Consume, Splits, Has, Union;
    var w := WantOf(e, e.waiters[i]);
    ConsumeSplits(e.pending, w);
    SplitAgain(e.pending, Wake(e, i).pending, if Has(w.option, CLEAR_FLAG) then Taken(e.pending, w) else 0,
               f.pending, cleared);
  }

  /** Bits are conserved: after a send, what is left in the set and what the resumed waiters
      that asked for CLEAR took make up what was there and what was sent, with no bit in both.
      With nobody waiting everything is left. */
  lemma SendConservesBits(e: EventSet, bits: bv32)
    requires Distinct(e.waiters)
    ensures Splits(Union(e.pending, bits), Send(e, bits).pending, ClearedBy(e.waiters, e, Send(e, bits)))
    ensures e.waiters == [] ==> Send(e, bits).pending == Union(e.pending, bits)
  {
    var d := e.(pending := Union(e.pending, bits));
    assert e.waiters[0..] == e.waiters;
    if bits == 0 {
      NothingCleared(e.waiters, e);
      UnionWithNothing(e.pending);
      SplitNothing(e.pending);
    } else {
      hide Sweep, ClearedBy, Union, Splits;
      SweepSplits(d, 0);
      SameCleared(e.waiters, e, d, Sweep(d, 0));
      NobodyClears(e, Sweep(d, 0));
      if e.waiters == [] {
        SplitAlone(Union(e.pending, bits), Sweep(d, 0).pending);
      }
    }
  }

  lemma NobodyClears(e: EventSet, f: EventSet)
    ensures ClearedBy([], e, f) == 0
  {}

  lemma SplitAlone(c: bv32, left: bv32)
    requires Splits(c, left, 0)
    ensures left == c
  {}

  lemma UnionWithNothing(a: bv32)
    ensures Union(a, 0) == a
  {}

  lemma {:induction false} NothingCleared(ts: seq<Tid>, e: EventSet)
    requires forall i :: 0 <= i < |ts| ==> ts[i] in e.waiters
    ensures ClearedBy(ts, e, e) == 0
  {
    if ts != [] {
      NothingCleared(ts[1..], e);
      UnionWithNothing(0);
    }
  }

  // ----- Who is resumed -----

  /** A send resumes the waiter at place k if and only if its request is met by what the
      waiters before it leave of the enlarged set, and it then gets the bits of its request
      that are there at its turn. */
  lemma ResumedIffMet(e: EventSet, bits: bv32, k: nat)
    requires bits != 0 && k < |e.waiters| && Distinct(e.waiters)
    requires forall t :: t in e.waiters ==> WantOf(e, t).bits != 0
    ensures var t, f := e.waiters[k], Send(e, bits);
            var found := ServeInOrder(e.(pending := Union(e.pending, bits)), e.waiters[..k]);
            && (t !in f.waiters <==> Satisfied(found, WantOf(e, t)))
            && (t !in f.waiters ==> WantOf(f, t).bits == Common(found, WantOf(e, t).bits))
  {
    hide Satisfied, Sweep, ServeInOrder, Common, Union;
    assert e.waiters[0..k] == e.waiters[..k];
    SweptIffMet(e.(pending := Union(e.pending, bits)), 0, k);
  }

  lemma {:induction false} SweptIffMet(e: EventSet, i: nat, k: nat)
    requires i <= k < |e.waiters| && Distinct(e.waiters)
    requires forall t :: t in e.waiters ==> WantOf(e, t).bits != 0
    ensures var t, f := e.waiters[k], Sweep(e, i);
            var found := ServeInOrder(e, e.waiters[i..k]);
            && (t !in f.waiters <==> Satisfied(found, WantOf(e, t)))
            && (t !in f.waiters ==> WantOf(f, t).bits == Common(found, WantOf(e, t).bits))
    decreases |e.waiters| - i
  {
    hide Satisfied, Common, Has, Wake, Sweep, ServeInOrder, Recv;
    var ws := e.waiters;
    var u := ws[i];
    SweepOnce(e, i);
    if i == k {
      assert ws[i..k] == [];
      ServeNobody(e);
      if Satisfied(e.pending, WantOf(e, u)) {
        WakeOne(e, i);
        DeferredIsImmediate(e, i, 0, Fifo, map[]);
        MetAtOnce(e, i);
        assert u !in Wake(e, i).waiters[i..];
        SweepLeavesOthers(Wake(e, i), i, u);
      } else {
        assert u !in ws[i + 1..];
        SweepLeavesOthers(e, i + 1, u);
      }
    } else {
      ServeOnce(e, u, ws[i + 1..k]);
      assert ws[i..k] == [u] + ws[i + 1..k];
      if Satisfied(e.pending, WantOf(e, u)) {
        var e1 := Wake(e, i);
        WakeOne(e, i);
        assert e1.waiters[k - 1] == ws[k] && e1.waiters[i..k - 1] == ws[i + 1..k];
        SweptIffMet(e1, i, k - 1);
        DeferredIsImmediate(e, i, 0, Fifo, map[]);
        SameServing(e1, Recv(e, u, WantOf(e, u), 0, Fifo, map[]).e, ws[i + 1..k]);
      } else {
        SweptIffMet(e, i + 1, k);
      }
    }
  }

  lemma ServeNobody(e: EventSet)
    ensures ServeInOrder(e, []) == e.pending
  {}

  /** A receive without waiting changes the set only if the request is met. */
  lemma ServeOnce(e: EventSet, t: Tid, ts: seq<Tid>)
    requires WantOf(e, t).bits != 0
    ensures var r := Recv(e, t, WantOf(e, t), 0, Fifo, map[]).e;
            && ServeInOrder(e, [t] + ts) == ServeInOrder(r, ts)
            && r.waiters == e.waiters && r.info == e.info
            && (!Satisfied(e.pending, WantOf(e, t)) ==> r == e)
  {
    hide Satisfied;
    assert ([t] + ts)[1..] == ts;
  }

  lemma MetAtOnce(e: EventSet, i: nat)
    requires i < |e.waiters| && WantOf(e, e.waiters[i]).bits != 0 && Satisfied(e.pending, WantOf(e, e.waiters[i]))
    ensures WantOf(Wake(e, i), e.waiters[i]).bits == Common(e.pending, WantOf(e, e.waiters[i]).bits)
  {
    DeferredIsImmediate(e, i, 0, Fifo, map[]);
    hide Satisfied, Wake, Common;
  }

  // ----- What a receive is told -----

  /** A receive that asks for nothing is an error; one whose request is met returns at once with
      an answer; any other waits, or ends with a timeout and no bits and changes nothing. */
  lemma ReceiveAnswers(y: System, t: Tid, w: Want, timeout: int, prio: Priorities, flag: Flag)
    requires Sound(y) && Enabled(y, RecvCall(t, w, timeout, prio))
    ensures var y' := Step(y, RecvCall(t, w, timeout, prio), flag);
            && (t in y'.inside <==> w.bits != 0 && !Satisfied(y.e.pending, w) && timeout != 0)
            && (t in y'.e.waiters <==> t in y'.inside)
            && (t in y'.inside ==> y'.e.pending == y.e.pending && y'.asked[t] == w)
            && (w.bits == 0 ==> y' == y.(told := y.told[t := Verdict(Error, 0)]))
            && (w.bits != 0 && !Satisfied(y.e.pending, w) && timeout == 0 ==>
                  y' == y.(told := y.told[t := Verdict(Timeout, 0)]))
            && (w.bits != 0 && Satisfied(y.e.pending, w) ==>
                  t in y'.told && y'.told[t].error == Ok && Answers(y'.told[t].bits, w))
  {
    SuspendMembers(y.e.waiters, prio, t, flag);
    if w.bits != 0 && Satisfied(y.e.pending, w) {
      ClearTakesExactly(y.e, t, w, timeout, flag, prio);
    }
    hide Satisfied, Answers, Has;
  }

  /** The same for a thread that a send resumes: it returns RT_EOK and the bits it got. */
  lemma SendWakes(y: System, bits: bv32, flag: Flag, k: nat)
    requires Sound(y) && bits != 0 && k < |y.e.waiters|
    ensures var y', t := Step(y, SendCall(bits), flag), y.e.waiters[k];
            var found := ServeInOrder(y.e.(pending := Union(y.e.pending, bits)), y.e.waiters[..k]);
            && (t in y'.woken <==> Satisfied(found, y.asked[t]))
            && (t in y'.woken ==> y'.woken[t] == Verdict(Ok, Common(found, y.asked[t].bits)))
            && (t in y'.e.waiters <==> t !in y'.woken)
  {
    var t := y.e.waiters[k];
    assert t in y.e.waiters;
    StepKeepsSound(y, SendCall(bits), flag);
    ResumedIffMet(y.e, bits, k);
    hide Satisfied, Common, Union, Answers, Has, ServeInOrder, Send, NoneSatisfied;
  }

  // ----- A bit over a run -----

  predicate Sends(a: Event, b: bv32) {
    a.SendCall? && Holds(a.bits, b)
  }

  /** This event takes the bit out of the set: a receive that is answered at once or a resumed
      waiter, asking for CLEAR, that gets the bit, or a reset. */
  predicate Clears(y: System, a: Event, b: bv32, flag: Flag)
    requires Enabled(y, a)
  {
    match a
    case RecvCall(t, w, _, _) =>
      var y' := Step(y, a, flag);
      && t !in y'.inside && t in y'.told && y'.told[t].error == Ok
      && Has(w.option, CLEAR_FLAG) && Holds(y'.told[t].bits, b)
    case SendCall(bits) => Holds(ClearedBy(y.e.waiters, y.e, Send(y.e, bits)), b)
    case ResetCall => true
    case _ => false
  }

  predicate NeverCleared(y: System, es: seq<Event>, b: bv32, flag: Flag)
    requires IsRun(y, es, flag)
    decreases |es|
  {
    es != [] ==> !Clears(y, es[0], b, flag) && NeverCleared(Step(y, es[0], flag), es[1..], b, flag)
  }

  /** Some event sends the bit and from then on, itself included, none takes it out. */
  predicate SentAndKept(y: System, es: seq<Event>, b: bv32, flag: Flag)
    requires IsRun(y, es, flag)
    decreases |es|
  {
    && es != []
    && ((Sends(es[0], b) && NeverCleared(y, es, b, flag)) || SentAndKept(Step(y, es[0], flag), es[1..], b, flag))
  }

  lemma StepMovesBit(y: System, a: Event, b: bv32, flag: Flag)
    requires Sound(y) && Enabled(y, a) && IsBit(b)
    ensures Holds(Step(y, a, flag).e.pending, b)
       <==> (Holds(y.e.pending, b) || Sends(a, b)) && !Clears(y, a, b, flag)
  {
    match a
    case RecvCall(t, w, timeout, prio) => ReceiveMovesBit(y, t, w, timeout, prio, b, flag);
    case SendCall(bits) => SendMovesBit(y, bits, b);
    case ResetCall => NoBitOfNothing(b);
    case _ =>
  }

  /** The set after a receive, and what it answered. */
  lemma ReceiveOnce(y: System, t: Tid, w: Want, timeout: int, prio: Priorities, flag: Flag)
    requires Sound(y) && Enabled(y, RecvCall(t, w, timeout, prio))
    ensures var y' := Step(y, RecvCall(t, w, timeout, prio), flag);
            if w.bits != 0 && Satisfied(y.e.pending, w) then
              && y'.e.pending == Consume(y.e.pending, w.bits, w.option)
              && t !in y'.inside && t in y'.told && y'.told[t] == Verdict(Ok, Common(y.e.pending, w.bits))
            else
              y'.e.pending == y.e.pending && (t in y'.inside || (t in y'.told && y'.told[t].error != Ok))
  {
    hide Distinct, NoneSatisfied, Satisfied, Answers, Suspend, Has, Common, Consume;
  }

  lemma ReceiveMovesBit(y: System, t: Tid, w: Want, timeout: int, prio: Priorities, b: bv32, flag: Flag)
    requires Sound(y) && Enabled(y, RecvCall(t, w, timeout, prio)) && IsBit(b)
    ensures Holds(Step(y, RecvCall(t, w, timeout, prio), flag).e.pending, b)
       <==> Holds(y.e.pending, b) && !Clears(y, RecvCall(t, w, timeout, prio), b, flag)
  {
    ReceiveOnce(y, t, w, timeout, prio, flag);
    ConsumedBit(y.e.pending, w, b);
    hide Sound, Satisfied, IsBit, Holds, Has, Common, Consume, Step;
  }

  lemma ConsumedBit(pending: bv32, w: Want, b: bv32)
    requires IsBit(b)
    ensures Holds(Consume(pending, w.bits, w.option), b)
       <==> Holds(pending, b) && !(Has(w.option, CLEAR_FLAG) && Holds(Common(pending, w.bits), b))
  {
    BitOfWithout(pending, w.bits, b);
    BitOfCommon(pending, w.bits, b);
    hide IsBit, Holds, Has, Common, Without;
  }

  lemma SendMovesBit(y: System, bits: bv32, b: bv32)
    requires Sound(y) && IsBit(b)
    ensures Holds(Send(y.e, bits).pending, b)
       <==> (Holds(y.e.pending, b) || Holds(bits, b)) && !Holds(ClearedBy(y.e.waiters, y.e, Send(y.e, bits)), b)
  {
    hide NoneSatisfied, Send, ClearedBy, Union, IsBit, Holds, Splits, Answers;
    SendConservesBits(y.e, bits);
    BitOfUnion(y.e.pending, bits, b);
    BitOfSplit(Union(y.e.pending, bits), Send(y.e, bits).pending, ClearedBy(y.e.waiters, y.e, Send(y.e, bits)), b);
  }

  lemma BitOfSplit(c: bv32, left: bv32, cleared: bv32, b: bv32)
    requires Splits(c, left, cleared) && IsBit(b)
    ensures Holds(left, b) <==> Holds(c, b) && !Holds(cleared, b)
  {
    hide IsBit, Holds;
    BitOfUnion(left, cleared, b);
    BitOfCommon(left, cleared, b);
    NoBitOfNothing(b);
  }

  /** Over every run: a bit is in the set if and only if it was sent, or there at first, and
      no CLEAR and no reset took it out since. */
  lemma {:induction false} BitIsThereIff(y: System, es: seq<Event>, b: bv32, flag: Flag)
    requires Sound(y) && IsRun(y, es, flag) && IsBit(b)
    ensures Holds(After(y, es, flag).e.pending, b)
       <==> (Holds(y.e.pending, b) && NeverCleared(y, es, b, flag)) || SentAndKept(y, es, b, flag)
    decreases |es|
  {
    if es != [] {
      hide Sound, Step, Clears, Sends, IsBit, Holds;
      StepKeepsSound(y, es[0], flag);
      StepMovesBit(y, es[0], b, flag);
      BitIsThereIff(Step(y, es[0], flag), es[1..], b, flag);
    }
  }
}
