/** Threads, their error codes, and the order in which they wait. */
module WaitList {

  type Tid = nat

  /** RT_EOK and the negated RT_ERROR, RT_ETIMEOUT and RT_EFULL. */
  datatype Err = Ok | Error | Timeout | Full

  /** A call has returned, or its thread has suspended itself. */
  datatype Outcome = Returned(error: Err) | Suspended

  /** RT_IPC_FLAG_FIFO and RT_IPC_FLAG_PRIO. */
  datatype Flag = Fifo | Prio

  /** thread->current_priority; a smaller number is more urgent. */
  type Priorities = map<Tid, nat>

  function PriorityOf(prio: Priorities, t: Tid): nat {
    if t in prio then prio[t] else 0
  }

  /** Where rt_ipc_list_suspend links a thread of priority p into a list of these
      priorities: before the first that is less urgent, or at the end. */
  function Position(ps: seq<nat>, p: nat, flag: Flag): (i: nat)
    ensures i <= |ps|
    ensures flag == Fifo ==> i == |ps|
    ensures flag == Prio ==> (forall j :: 0 <= j < i ==> ps[j] <= p) && (i < |ps| ==> p < ps[i])
    decreases |ps|
  {
    if flag == Fifo then |ps|
    else if ps == [] || p < ps[0] then 0
    else 1 + Position(ps[1..], p, flag)
  }

  function InsertAt<T>(s: seq<T>, i: nat, x: T): seq<T>
    requires i <= |s|
  {
    s[..i] + [x] + s[i..]
  }

  function RemoveAt<T>(s: seq<T>, i: nat): seq<T>
    requires i < |s|
  {
    s[..i] + s[i + 1..]
  }

  function PrioritiesOf(prio: Priorities, ws: seq<Tid>): (ps: seq<nat>)
    ensures |ps| == |ws|
  {
    seq(|ws|, i requires 0 <= i < |ws| => PriorityOf(prio, ws[i]))
  }

  /** The wait list after thread t suspends on it. */
  function Suspend(ws: seq<Tid>, prio: Priorities, t: Tid, flag: Flag): (r: seq<Tid>)
    ensures |r| == |ws| + 1
  {
    InsertAt(ws, Position(PrioritiesOf(prio, ws), PriorityOf(prio, t), flag), t)
  }

  ghost predicate Distinct<T>(s: seq<T>) {
    forall i, j :: 0 <= i < j < |s| ==> s[i] != s[j]
  }

  ghost predicate Sorted(ps: seq<nat>) {
    forall i, j :: 0 <= i < j < |ps| ==> ps[i] <= ps[j]
  }

  function IndexIn(ws: seq<Tid>, t: Tid): (i: nat)
    requires t in ws
    ensures i < |ws| && ws[i] == t
  {
    if ws[0] == t then 0 else 1 + IndexIn(ws[1..], t)
  }

  /** The wait list without thread t, which a timeout or a resume unlinks. */
  function Unlink(ws: seq<Tid>, t: Tid): seq<Tid>
    requires t in ws
  {
    RemoveAt(ws, IndexIn(ws, t))
  }

  // ----- Properties -----

  lemma InsertMembers<T>(s: seq<T>, i: nat, x: T)
    requires i <= |s|
    ensures forall y :: y in InsertAt(s, i, x) <==> y == x || y in s
    ensures |InsertAt(s, i, x)| == |s| + 1
  {
    assert s == s[..i] + s[i..];
  }

  lemma InsertDistinct<T>(s: seq<T>, i: nat, x: T)
    requires i <= |s| && Distinct(s) && x !in s
    ensures Distinct(InsertAt(s, i, x))
  {
    var r := InsertAt(s, i, x);
    forall a, b | 0 <= a < b < |r|
      ensures r[a] != r[b]
    {
      assert a != i ==> r[a] == s[if a < i then a else a - 1];
      assert b != i ==> r[b] == s[if b < i then b else b - 1];
    }
  }

  lemma RemoveDistinct<T>(s: seq<T>, i: nat)
    requires i < |s| && Distinct(s)
    ensures Distinct(RemoveAt(s, i)) && s[i] !in RemoveAt(s, i)
    ensures forall y :: y in RemoveAt(s, i) <==> y in s && y != s[i]
  {
    var r := RemoveAt(s, i);
    assert s == s[..i] + [s[i]] + s[i + 1..];
    forall a | 0 <= a < |r|
      ensures r[a] == s[if a < i then a else a + 1]
    {}
  }

  lemma SuspendMembers(ws: seq<Tid>, prio: Priorities, t: Tid, flag: Flag)
    ensures forall y :: y in Suspend(ws, prio, t, flag) <==> y == t || y in ws
    ensures Distinct(ws) && t !in ws ==> Distinct(Suspend(ws, prio, t, flag))
  {
    var i := Position(PrioritiesOf(prio, ws), PriorityOf(prio, t), flag);
    InsertMembers(ws, i, t);
    if Distinct(ws) && t !in ws {
      InsertDistinct(ws, i, t);
    }
  }

  lemma UnlinkMembers(ws: seq<Tid>, t: Tid)
    requires t in ws && Distinct(ws)
    ensures Distinct(Unlink(ws, t)) && forall y :: y in Unlink(ws, t) <==> y in ws && y != t
  {
    RemoveDistinct(ws, IndexIn(ws, t));
  }

  lemma PrioritiesAfterInsert(prio: Priorities, ws: seq<Tid>, i: nat, t: Tid)
    requires i <= |ws|
    ensures PrioritiesOf(prio, InsertAt(ws, i, t)) == InsertAt(PrioritiesOf(prio, ws), i, PriorityOf(prio, t))
  {}

  /** Priority order is kept, and a new thread waits behind every thread that is at least
      as urgent: equal priorities stay in order of arrival. */
  lemma SuspendKeepsOrder(ws: seq<Tid>, prio: Priorities, t: Tid)
    requires Sorted(PrioritiesOf(prio, ws))
    ensures Sorted(PrioritiesOf(prio, Suspend(ws, prio, t, Prio)))
    ensures exists i ::
              && 0 <= i <= |ws| && Suspend(ws, prio, t, Prio) == InsertAt(ws, i, t)
              && (forall j :: 0 <= j < i ==> PriorityOf(prio, ws[j]) <= PriorityOf(prio, t))
              && (forall j :: i <= j < |ws| ==> PriorityOf(prio, t) < PriorityOf(prio, ws[j]))
  {
    var ps, p := PrioritiesOf(prio, ws), PriorityOf(prio, t);
    var i := Position(ps, p, Prio);
    PrioritiesAfterInsert(prio, ws, i, t);
    SortedInsert(ps, i, p);
    assert Suspend(ws, prio, t, Prio) == InsertAt(ws, i, t);
    assert forall j :: 0 <= j < |ws| ==> ps[j] == PriorityOf(prio, ws[j]);
  }

  lemma SortedInsert(ps: seq<nat>, i: nat, p: nat)
    requires i <= |ps| && Sorted(ps) && (forall j :: 0 <= j < i ==> ps[j] <= p) && (i < |ps| ==> p < ps[i])
    ensures Sorted(InsertAt(ps, i, p)) && forall j :: i <= j < |ps| ==> p < ps[j]
  {
    var r := InsertAt(ps, i, p);
    forall a, b | 0 <= a < b < |r|
      ensures r[a] <= r[b]
    {
      assert a != i ==> r[a] == ps[if a < i then a else a - 1];
      assert b != i ==> r[b] == ps[if b < i then b else b - 1];
    }
  }

  lemma SortedRemove(ps: seq<nat>, i: nat)
    requires i < |ps| && Sorted(ps)
    ensures Sorted(RemoveAt(ps, i))
  {
    var r := RemoveAt(ps, i);
    forall a, b | 0 <= a < b < |r|
      ensures r[a] <= r[b]
    {
      assert r[a] == ps[if a < i then a else a + 1] && r[b] == ps[if b < i then b else b + 1];
    }
  }

  lemma LeavingKeepsOrder(prio: Priorities, ws: seq<Tid>, i: nat)
    requires i < |ws| && Sorted(PrioritiesOf(prio, ws))
    ensures Sorted(PrioritiesOf(prio, RemoveAt(ws, i)))
  {
    SortedRemove(PrioritiesOf(prio, ws), i);
    assert PrioritiesOf(prio, RemoveAt(ws, i)) == RemoveAt(PrioritiesOf(prio, ws), i);
  }

  /** Changing the priority of a thread in the list, which leaves it where it is, keeps the
      list sorted if and only if the new priority lies between its neighbours'. */
  lemma ChangeKeepsOrderIff(prio: Priorities, ws: seq<Tid>, i: nat, p: nat)
    requires i < |ws| && Distinct(ws) && Sorted(PrioritiesOf(prio, ws))
    ensures Sorted(PrioritiesOf(prio[ws[i] := p], ws))
       <==> (i == 0 || PriorityOf(prio, ws[i - 1]) <= p) && (i + 1 == |ws| || p <= PriorityOf(prio, ws[i + 1]))
  {
    var ps, qs := PrioritiesOf(prio, ws), PrioritiesOf(prio[ws[i] := p], ws);
    assert qs == ps[i := p];
    PlaceKeepsOrderIff(ps, i, p);
    assert i > 0 ==> ps[i - 1] == PriorityOf(prio, ws[i - 1]);
    assert i + 1 < |ws| ==> ps[i + 1] == PriorityOf(prio, ws[i + 1]);
  }

  lemma PlaceKeepsOrderIff(ps: seq<nat>, i: nat, p: nat)
    requires i < |ps| && Sorted(ps)
    ensures Sorted(ps[i := p]) <==> (i == 0 || ps[i - 1] <= p) && (i + 1 == |ps| || p <= ps[i + 1])
  {
    var qs := ps[i := p];
    if (i == 0 || ps[i - 1] <= p) && (i + 1 == |ps| || p <= ps[i + 1]) {
      forall a, b | 0 <= a < b < |qs|
        ensures qs[a] <= qs[b]
      {
        assert b == i ==> ps[a] <= ps[i - 1];
        assert a == i ==> ps[i + 1] <= ps[b];
      }
    }
    if Sorted(qs) {
      SortedNeighbours(qs, i);
    }
  }

  lemma SortedNeighbours(ps: seq<nat>, i: nat)
    requires i < |ps| && Sorted(ps)
    ensures i == 0 || ps[i - 1] <= ps[i]
    ensures i + 1 == |ps| || ps[i] <= ps[i + 1]
  {}

  /** In FIFO mode a thread joins at the end. */
  lemma SuspendAppends(ws: seq<Tid>, prio: Priorities, t: Tid)
    ensures Suspend(ws, prio, t, Fifo) == ws + [t]
  {
    assert ws[..|ws|] == ws && ws[|ws|..] == [];
  }
}
