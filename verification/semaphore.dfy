/** The counting semaphore of ipc.c. One method is one section with interrupts disabled. */
module SemaphoreSpec {
  import opened WaitQueue
  import opened Turns

  const VALUE_MAX: nat := 0xffff   // RT_SEM_VALUE_MAX

  datatype Sem = Sem(value: nat, waiters: seq<Waiter>)

  datatype TakeResult = Taken | TimedOut | Blocked
  datatype ReleaseResult = Woke(w: Waiter) | Raised | Full

  function Take(s: Sem, flag: Flag, w: Waiter, time: int): (Sem, TakeResult) {
    if s.value > 0 then (s.(value := s.value - 1), Taken)
    else if time == 0 then (s, TimedOut)
    else (s.(waiters := Enqueue(flag, s.waiters, w)), Blocked)
  }

  /** A release hands the unit to the first waiter; only without waiters does it raise the value. */
  function Release(s: Sem): (Sem, ReleaseResult) {
    if s.waiters != [] then (s.(waiters := s.waiters[1..]), Woke(s.waiters[0]))
    else if s.value < VALUE_MAX then (s.(value := s.value + 1), Raised)
    else (s, Full)
  }

  /** What happens to a semaphore; the threads that take it are not among its waiters. */
  datatype Event = Takes(w: Waiter, time: int) | Releases | Expires(tid: nat) | Resets(value: nat)

  /** The semaphore with an account of the units: handed out and put back since the last (re)set to `base`. */
  datatype Account = Account(sem: Sem, base: nat, taken: nat, released: nat)

  function Step(a: Account, flag: Flag, e: Event): Account {
    match e
    case Takes(w, time) =>
      var (s, r) := Take(a.sem, flag, w, time);
      a.(sem := s, taken := if r == Taken then a.taken + 1 else a.taken)
    case Releases =>
      var (s, r) := Release(a.sem);
      (match r
       case Woke(_) => a.(sem := s, taken := a.taken + 1, released := a.released + 1)
       case Raised => a.(sem := s, released := a.released + 1)
       case Full => a)
    case Expires(tid) => a.(sem := a.sem.(waiters := Leave(a.sem.waiters, tid)))
    case Resets(value) => Account(Sem(value % 0x10000, []), value % 0x10000, 0, 0)
  }

  function Run(a: Account, flag: Flag, es: seq<Event>): Account
    decreases |es|
  {
    if es == [] then a else Step(Run(a, flag, es[..|es| - 1]), flag, es[|es| - 1])
  }

  /** No unit is created or lost, and no thread waits while a unit is free. */
  predicate Balanced(a: Account) {
    && a.sem.value + a.taken == a.base + a.released
    && (a.sem.value > 0 ==> a.sem.waiters == [])
    && a.sem.value <= VALUE_MAX
  }

  lemma {:induction false} StepKeepsOrder(a: Account, e: Event)
    requires Sorted(a.sem.waiters)
    ensures Sorted(Step(a, Prio, e).sem.waiters)
  {
    match e {
      case Takes(w, time) => EnqueueKeepsSorted(a.sem.waiters, w);
      case Expires(tid) => LeaveKeepsSorted(a.sem.waiters, tid);
      case _ =>
    }
  }

  lemma HeadIsUrgent(q: seq<Waiter>)
    requires Sorted(q)
    ensures forall w :: w in q ==> q[0].prio <= w.prio
  {
  }

  /** With the priority flag the thread to get the next unit is a most urgent waiter. */
  lemma {:induction false} RunKeepsOrder(value: nat, es: seq<Event>)
    ensures var q := Run(Account(Sem(value, []), value, 0, 0), Prio, es).sem.waiters;
            Sorted(q) && forall w :: w in q ==> q[0].prio <= w.prio
  {
    var start := Account(Sem(value, []), value, 0, 0);
    if es != [] {
      RunKeepsOrder(value, es[..|es| - 1]);
      StepKeepsOrder(Run(start, Prio, es[..|es| - 1]), es[|es| - 1]);
    }
    HeadIsUrgent(Run(start, Prio, es).sem.waiters);
  }

  lemma {:induction false} RunBalanced(value: nat, flag: Flag, es: seq<Event>)
    requires value <= VALUE_MAX
    ensures Balanced(Run(Account(Sem(value, []), value, 0, 0), flag, es))
  {
    if es != [] {
      RunBalanced(value, flag, es[..|es| - 1]);
    }
  }

  /** A semaphore after any run of calls since it was set to `value`. */
  ghost function After(value: nat, flag: Flag, es: seq<Event>): Account {
    Run(Account(Sem(value, []), value, 0, 0), flag, es)
  }

  /** When a take gets a unit, gives up or waits, over every run: a unit is to be had if and only if fewer have been
      taken than there were and were released since; without one, a timeout of 0 gives up and any other one waits. */
  lemma TakeAnswers(value: nat, flag: Flag, es: seq<Event>, w: Waiter, time: int)
    requires value <= VALUE_MAX && w.tid !in Tids(After(value, flag, es).sem.waiters)
    ensures var a := After(value, flag, es); var (s, r) := Take(a.sem, flag, w, time); var left := a.base + a.released - a.taken;
            && (r == Taken <==> left > 0) && (r == TimedOut <==> left == 0 && time == 0) && (r == Blocked <==> left == 0 && time != 0)
            && s.value == (if r == Taken then left - 1 else left)
            && (w.tid in Tids(s.waiters) <==> r == Blocked) && (r != Blocked ==> s.waiters == a.sem.waiters)
  {
    RunBalanced(value, flag, es);
    var q := After(value, flag, es).sem.waiters;
    var k := if flag == Fifo then |q| else Position(q, w.prio);
    InsertMembers(q, k, w);
    assert w in InsertAt(q, k, w) && Enqueue(flag, q, w) == InsertAt(q, k, w);
  }

  /** The threads waiting, in the order they came. */
  ghost function Arrived(value: nat, flag: Flag, es: seq<Event>): seq<Waiter>
    decreases |es|
  {
    if es == [] then []
    else
      var e, before := es[|es| - 1], Arrived(value, flag, es[..|es| - 1]);
      match e
      case Takes(w, time) => if Take(After(value, flag, es[..|es| - 1]).sem, flag, w, time).1 == Blocked then before + [w] else before
      case Releases => Served(flag, before)
      case Expires(tid) => Leave(before, tid)
      case Resets(_) => []
  }

  /** A thread that waits takes nothing. */
  ghost predicate TakersRun(value: nat, flag: Flag, es: seq<Event>) {
    forall k :: 0 <= k < |es| && es[k].Takes? ==> es[k].w.tid !in Tids(After(value, flag, es[..k]).sem.waiters)
  }

  /** Over every run a release wakes the thread whose turn it is: without the priority flag the one that came first,
      otherwise the first to come of the most urgent ones. Nobody waiting, it raises the value, but not above 65535. */
  lemma {:induction false} RunServesInTurn(value: nat, flag: Flag, es: seq<Event>)
    requires value <= VALUE_MAX && TakersRun(value, flag, es)
    ensures var a, arrived := After(value, flag, es), Arrived(value, flag, es); var (s, r) := Release(a.sem);
            && InTurn(flag, a.sem.waiters, arrived)
            && (r.Woke? ==> s.value == 0 && exists k: nat :: Next(flag, arrived, k) && r == Woke(arrived[k]))
            && (r == Raised <==> arrived == [] && a.sem.value < 0xffff) && (r == Raised ==> s == Sem(a.sem.value + 1, []))
            && (r == Full <==> arrived == [] && a.sem.value == 0xffff) && (r == Full ==> s == a.sem)
    decreases |es|
  {
    if es != [] {
      var front := es[..|es| - 1];
      forall k | 0 <= k < |front| && front[k].Takes? ensures front[k].w.tid !in Tids(After(value, flag, front[..k]).sem.waiters) {
        assert front[..k] == es[..k] && front[k] == es[k];
      }
      RunServesInTurn(value, flag, front);
      StepInTurn(value, flag, es);
    }
    RunBalanced(value, flag, es);
    var q, arrived := After(value, flag, es).sem.waiters, Arrived(value, flag, es);
    SameMembers(flag, q, arrived);
    if q != [] {
      var k := FirstIsNext(flag, q, arrived);
    }
  }

  lemma {:induction false} StepInTurn(value: nat, flag: Flag, es: seq<Event>)
    requires es != [] && TakersRun(value, flag, es)
    requires InTurn(flag, After(value, flag, es[..|es| - 1]).sem.waiters, Arrived(value, flag, es[..|es| - 1]))
    ensures InTurn(flag, After(value, flag, es).sem.waiters, Arrived(value, flag, es))
  {
    var front, e := es[..|es| - 1], es[|es| - 1];
    var q, before := After(value, flag, front).sem.waiters, Arrived(value, flag, front);
    match e {
      case Takes(w, time) => JoinsInTurn(flag, q, before, w);
      case Releases =>
        SameMembers(flag, q, before);
        ServesInTurn(flag, q, before);
      case Expires(tid) => LeavesInTurn(flag, q, before, tid);
      case Resets(_) =>
    }
  }
}

/** The semaphore as ipc.c keeps it, its wait list on the pointers of rtservice.h. */
module Semaphore {
  import opened WaitQueue
  import opened SemaphoreSpec
  import opened RtList

  class Sem {
    var value: nat
    const suspend_thread: Node   // the head of the wait list
    const flag: Flag
    ghost var ring: seq<Node>    // the list's nodes, the head first

    ghost function State(): SemaphoreSpec.Sem
      requires |ring| > 0
      reads this, ring
    {
      SemaphoreSpec.Sem(value, Waiting(ring))
    }

    ghost predicate Valid()
      reads this, ring
    {
      Ring(ring) && ring[0] == suspend_thread && Distinct(Waiting(ring))
    }

    /** rt_sem_init. */
    constructor (value: nat, flag: Flag)
      requires value <= VALUE_MAX   // asserted by the source
      ensures Valid() && State() == SemaphoreSpec.Sem(value, []) && this.flag == flag
      ensures fresh(suspend_thread) && ring == [suspend_thread]
    {
      var head := new Node(0, 0);
      this.value, this.flag, suspend_thread, ring := value, flag, head, [head];
    }

    /** rt_sem_take by `thread` up to the point where it has its answer or is suspended. */
    method Take(thread: Node, time: int) returns (r: TakeResult)
      requires Valid() && thread !in ring && thread.tid !in Tids(Waiting(ring))   // it runs, so it does not wait
      modifies this, ring, thread
      ensures Valid() && (State(), r) == SemaphoreSpec.Take(old(State()), flag, Waiter(thread.tid, old(thread.current_priority)), time)
      ensures forall x :: x in ring <==> x in old(ring) || (r == Blocked && x == thread)
    {
      ghost var q, w := Waiting(ring), Waiter(thread.tid, thread.current_priority);
      if value > 0 {
        value := value - 1;
        r := Taken;
      } else if time == 0 {
        r := TimedOut;
      } else {
        EnqueueMembers(flag, q, w);
        ring := Suspend(suspend_thread, thread, flag, ring);
        r := Blocked;
      }
    }

    /** rt_sem_release: the first node of the list, if there is one, is unlinked and its thread resumed. */
    method Release() returns (r: ReleaseResult)
      requires Valid()
      modifies this, ring
      ensures Valid() && (State(), r) == SemaphoreSpec.Release(old(State()))
      ensures ring == if |old(ring)| > 1 then RemoveAt(old(ring), 1) else old(ring)
    {
      var empty := IsEmpty(suspend_thread, ring);
      if !empty {
        r := ResumeFirst();
      } else if value < VALUE_MAX {
        value := value + 1;
        r := Raised;
      } else {
        r := Full;
      }
    }

    /** _ipc_list_resume. */
    method ResumeFirst() returns (r: ReleaseResult)
      requires Valid() && |ring| > 1
      modifies this`ring, ring
      ensures Valid() && old(State()).waiters != []
      ensures r == Woke(old(State()).waiters[0]) && State() == SemaphoreSpec.Sem(value, old(State()).waiters[1..])
      ensures ring == RemoveAt(old(ring), 1)
    {
      TailMembers(Waiting(ring));
      var thread;
      thread, ring := UnlinkFirst(suspend_thread, ring);
      r := Woke(Waiter(thread.tid, thread.current_priority));
    }

    /** The timer of a suspended thread runs out: its node is unlinked, wherever it stands. */
    method TimeOut(thread: Node, ghost k: nat)
      requires Valid() && 0 < k < |ring| && ring[k] == thread
      modifies this`ring, ring
      ensures Valid() && State() == SemaphoreSpec.Sem(value, Leave(old(State()).waiters, thread.tid))
      ensures ring == RemoveAt(old(ring), k)
    {
      ghost var q := Waiting(ring);
      LeaveIs(q, k - 1);
      LeaveMembers(q, thread.tid);
      ring := Unlink(thread, ring, k);
    }

    /** rt_sem_control with RT_IPC_CMD_RESET: every waiter leaves with an error. */
    method Reset(v: nat)
      requires Valid()
      modifies this, ring
      ensures Valid() && State() == SemaphoreSpec.Sem(v % 0x10000, [])
    {
      var empty := IsEmpty(suspend_thread, ring);
      while !empty
        invariant Valid() && (empty <==> |ring| == 1)
        invariant forall i :: 0 <= i < |ring| ==> ring[i] in old(ring)
        decreases |ring|
      {
        ghost var was := ring;
        var _ := ResumeFirst();
        assert forall i :: 0 <= i < |ring| ==> ring[i] == was[if i == 0 then 0 else i + 1];
        empty := IsEmpty(suspend_thread, ring);
      }
      value := v % 0x10000;
      assert Waiting(ring) == [];
    }
  }
}
