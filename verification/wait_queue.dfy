/** The order in which threads wait on an IPC object (_ipc_list_suspend of ipc.c). */
module WaitQueue {

  /** A suspended thread. A smaller number is a more urgent priority. */
  datatype Waiter = Waiter(tid: nat, prio: nat)

  datatype Flag = Fifo | Prio   // RT_IPC_FLAG_FIFO, RT_IPC_FLAG_PRIO

  /** The first waiter that is less urgent than priority `p`, |q| if there is none. */
  function Position(q: seq<Waiter>, p: nat): (k: nat)
    ensures k <= |q|
    ensures forall i :: 0 <= i < k ==> q[i].prio <= p
    ensures k < |q| ==> p < q[k].prio
  {
    if q == [] || p < q[0].prio then 0 else 1 + Position(q[1..], p)
  }

  function InsertAt<T>(q: seq<T>, k: nat, x: T): seq<T>
    requires k <= |q|
  {
    q[..k] + [x] + q[k..]
  }

  function RemoveAt<T>(q: seq<T>, k: nat): seq<T>
    requires k < |q|
  {
    q[..k] + q[k + 1..]
  }

  function Enqueue(flag: Flag, q: seq<Waiter>, w: Waiter): seq<Waiter> {
    match flag
    case Fifo => q + [w]
    case Prio => InsertAt(q, Position(q, w.prio), w)
  }

  /** The place of thread `tid` in the queue, |q| if it does not wait. */
  function Where(q: seq<Waiter>, tid: nat): (k: nat)
    ensures k <= |q| && (k < |q| ==> q[k].tid == tid)
    ensures forall i :: 0 <= i < k ==> q[i].tid != tid
  {
    if q == [] || q[0].tid == tid then 0 else 1 + Where(q[1..], tid)
  }

  /** Thread `tid` leaves the queue, as a timeout makes it do. */
  function Leave(q: seq<Waiter>, tid: nat): seq<Waiter> {
    var k := Where(q, tid);
    if k < |q| then RemoveAt(q, k) else q
  }

  ghost predicate Sorted(q: seq<Waiter>) {
    forall i, j :: 0 <= i < j < |q| ==> q[i].prio <= q[j].prio
  }

  /** The waiters of priority `p`, in queue order. */
  function OfPriority(q: seq<Waiter>, p: nat): seq<Waiter> {
    if q == [] then []
    else (if q[0].prio == p then [q[0]] else []) + OfPriority(q[1..], p)
  }

  ghost function Tids(q: seq<Waiter>): set<nat> {
    set w | w in q :: w.tid
  }

  /** No thread waits twice. */
  ghost predicate Distinct(q: seq<Waiter>) {
    forall i, j :: 0 <= i < j < |q| ==> q[i].tid != q[j].tid
  }

  lemma {:induction false} EnqueueKeepsSorted(q: seq<Waiter>, w: Waiter)
    requires Sorted(q)
    ensures Sorted(Enqueue(Prio, q, w))
  {
    var k := Position(q, w.prio);
    var c := Enqueue(Prio, q, w);
    forall i, j | 0 <= i < j < |c| ensures c[i].prio <= c[j].prio {
      assert k < |q| ==> w.prio < q[k].prio;
    }
  }

  lemma {:induction false} OfPriorityConcat(a: seq<Waiter>, b: seq<Waiter>, p: nat)
    ensures OfPriority(a + b, p) == OfPriority(a, p) + OfPriority(b, p)
  {
    if a == [] {
      assert a + b == b;
    } else {
      var c := a + b;
      assert c[0] == a[0] && c[1..] == a[1..] + b;
      OfPriorityConcat(a[1..], b, p);
      assert OfPriority(c, p) == (if c[0].prio == p then [c[0]] else []) + OfPriority(c[1..], p);
    }
  }

  lemma {:induction false} OfPriorityNone(q: seq<Waiter>, p: nat)
    requires forall w :: w in q ==> w.prio != p
    ensures OfPriority(q, p) == []
  {
    if q != [] {
      OfPriorityNone(q[1..], p);
    }
  }

  /** Among waiters of equal priority the newcomer comes last: the queue is stable in arrival order. */
  lemma {:induction false} EnqueueIsStable(flag: Flag, q: seq<Waiter>, w: Waiter, p: nat)
    requires flag == Prio ==> Sorted(q)
    ensures OfPriority(Enqueue(flag, q, w), p) == OfPriority(q, p) + (if w.prio == p then [w] else [])
  {
    match flag {
      case Fifo => OfPriorityConcat(q, [w], p);
      case Prio =>
        var k := Position(q, w.prio);
        InsertOfPriority(q, k, w, p);
        if w.prio == p {
          OfPriorityNone(q[k..], p);
        }
    }
  }

  /** Queue `c` is `q` with the newcomer behind exactly those it has to wait for: with the priority flag the waiters
      at least as urgent, otherwise all. */
  ghost predicate Queued(flag: Flag, q: seq<Waiter>, c: seq<Waiter>, w: Waiter) {
    exists k: nat :: k <= |q| && c == InsertAt(q, k, w) && forall i :: 0 <= i < |q| ==> (i < k <==> flag == Fifo || q[i].prio <= w.prio)
  }

  lemma {:induction false} EnqueuePlace(flag: Flag, q: seq<Waiter>, w: Waiter)
    requires flag == Prio ==> Sorted(q)
    ensures Queued(flag, q, Enqueue(flag, q, w), w)
  {
    var k := if flag == Fifo then |q| else Position(q, w.prio);
    assert Enqueue(flag, q, w) == InsertAt(q, k, w);
  }

  lemma {:induction false} InsertOfPriority(q: seq<Waiter>, k: nat, w: Waiter, p: nat)
    requires k <= |q|
    ensures OfPriority(q, p) == OfPriority(q[..k], p) + OfPriority(q[k..], p)
    ensures OfPriority(InsertAt(q, k, w), p) == OfPriority(q[..k], p) + (if w.prio == p then [w] else []) + OfPriority(q[k..], p)
  {
    assert q == q[..k] + q[k..];
    OfPriorityConcat(q[..k], q[k..], p);
    OfPriorityConcat(q[..k] + [w], q[k..], p);
    OfPriorityConcat(q[..k], [w], p);
  }

  // ----- membership -----

  lemma {:induction false} InsertMembers(q: seq<Waiter>, k: nat, w: Waiter)
    requires k <= |q|
    ensures forall x :: x in InsertAt(q, k, w) <==> x in q || x == w
  {
    var c := InsertAt(q, k, w);
    forall x | x in q ensures x in c {
      var i :| 0 <= i < |q| && q[i] == x;
      assert c[if i < k then i else i + 1] == x;
    }
    assert c[k] == w;
  }

  lemma {:induction false} InsertDistinct(q: seq<Waiter>, k: nat, w: Waiter)
    requires k <= |q| && Distinct(q) && w.tid !in Tids(q)
    ensures Distinct(InsertAt(q, k, w))
  {
    var c := InsertAt(q, k, w);
    forall i, j | 0 <= i < j < |c| ensures c[i].tid != c[j].tid {
      assert i != k ==> c[i] in q;
      assert j != k ==> c[j] in q;
    }
  }

  lemma {:induction false} EnqueueMembers(flag: Flag, q: seq<Waiter>, w: Waiter)
    requires Distinct(q) && w.tid !in Tids(q)
    ensures Tids(Enqueue(flag, q, w)) == Tids(q) + {w.tid} && Distinct(Enqueue(flag, q, w))
  {
    var k := if flag == Fifo then |q| else Position(q, w.prio);
    assert Enqueue(flag, q, w) == InsertAt(q, k, w);
    InsertMembers(q, k, w);
    InsertDistinct(q, k, w);
  }

  lemma {:induction false} RemoveMembers(q: seq<Waiter>, k: nat)
    requires k < |q| && Distinct(q)
    ensures Tids(RemoveAt(q, k)) == Tids(q) - {q[k].tid} && Distinct(RemoveAt(q, k))
  {
    var c := RemoveAt(q, k);
    forall w | w in q && w.tid != q[k].tid ensures w in c {
      var i :| 0 <= i < |q| && q[i] == w;
      assert c[if i < k then i else i - 1] == w;
    }
    forall w | w in c ensures w in q && w.tid != q[k].tid {
      var i :| 0 <= i < |c| && c[i] == w;
      assert w == q[if i < k then i else i + 1];
    }
  }

  lemma {:induction false} LeaveMembers(q: seq<Waiter>, tid: nat)
    requires Distinct(q)
    ensures Tids(Leave(q, tid)) == Tids(q) - {tid} && Distinct(Leave(q, tid))
    ensures Sorted(q) ==> Sorted(Leave(q, tid))
  {
    var k := Where(q, tid);
    if k < |q| {
      RemoveMembers(q, k);
    } else {
      assert tid !in Tids(q);
    }
  }

  /** A thread waits in one place, wherever one finds it. */
  lemma {:induction false} LeaveIs(q: seq<Waiter>, k: nat)
    requires k < |q| && Distinct(q)
    ensures Leave(q, q[k].tid) == RemoveAt(q, k)
  {
    assert Where(q, q[k].tid) == k;
  }

  lemma {:induction false} LeaveKeepsSorted(q: seq<Waiter>, tid: nat)
    requires Sorted(q)
    ensures Sorted(Leave(q, tid))
  {
  }

  /** Waking the head keeps the rest in order. */
  lemma {:induction false} TailMembers(q: seq<Waiter>)
    requires Distinct(q) && q != []
    ensures Tids(q[1..]) == Tids(q) - {q[0].tid} && Distinct(q[1..])
    ensures Sorted(q) ==> Sorted(q[1..])
  {
    RemoveMembers(q, 0);
    assert RemoveAt(q, 0) == q[1..];
  }
}

/** Whose turn it is. */
module Turns {
  import opened WaitQueue

  /** Whose turn it is among those still waiting, in the order they came: the first one without the priority flag,
      otherwise the first one of those that nobody is more urgent than. */
  ghost predicate Next(flag: Flag, arrived: seq<Waiter>, k: nat) {
    && k < |arrived|
    && match flag
       case Fifo => k == 0
       case Prio =>
         && (forall i :: 0 <= i < |arrived| ==> arrived[k].prio <= arrived[i].prio)
         && (forall i :: 0 <= i < k ==> arrived[k].prio < arrived[i].prio)
  }

  /** Queue `q` serves the threads that came in the order `arrived` by their turns. */
  ghost predicate InTurn(flag: Flag, q: seq<Waiter>, arrived: seq<Waiter>) {
    && Distinct(q) && Distinct(arrived)
    && match flag
       case Fifo => q == arrived
       case Prio => Sorted(q) && forall p {:trigger OfPriority(q, p)} :: OfPriority(q, p) == OfPriority(arrived, p)
  }

  lemma {:induction false} OfPriorityMembers(q: seq<Waiter>, p: nat)
    ensures forall w :: w in OfPriority(q, p) <==> w in q && w.prio == p
  {
    if q != [] {
      OfPriorityMembers(q[1..], p);
      assert q == [q[0]] + q[1..];
    }
  }

  lemma {:induction false} SameMembers(flag: Flag, q: seq<Waiter>, arrived: seq<Waiter>)
    requires InTurn(flag, q, arrived)
    ensures forall w :: w in q <==> w in arrived
    ensures Tids(q) == Tids(arrived) && (q == [] <==> arrived == [])
  {
    if flag == Prio {
      forall w ensures w in q <==> w in arrived {
        OfPriorityMembers(q, w.prio);
        OfPriorityMembers(arrived, w.prio);
      }
      assert q != [] ==> q[0] in arrived;
      assert arrived != [] ==> arrived[0] in q;
    }
  }

  lemma LeaveNobody(q: seq<Waiter>, tid: nat)
    requires forall w :: w in q ==> w.tid != tid
    ensures Leave(q, tid) == q
  {
  }

  lemma OfPriorityBehind(w: Waiter, q: seq<Waiter>, p: nat)
    ensures OfPriority([w] + q, p) == (if w.prio == p then [w] else []) + OfPriority(q, p)
  {
    assert ([w] + q)[1..] == q;
  }

  lemma LeaveFirst(w: Waiter, q: seq<Waiter>)
    ensures Leave([w] + q, w.tid) == q
  {
  }

  lemma {:induction false} LeaveOfPriority(q: seq<Waiter>, tid: nat, p: nat)
    requires Distinct(q)
    ensures OfPriority(Leave(q, tid), p) == Leave(OfPriority(q, p), tid)
  {
    if q != [] {
      var w, rest := q[0], q[1..];
      assert q == [w] + rest;
      OfPriorityBehind(w, rest, p);
      if w.tid == tid {
        LeaveFirst(w, rest);
        LeaveFirst(w, OfPriority(rest, p));
        OfPriorityMembers(rest, p);
        if w.prio != p { LeaveNobody(OfPriority(rest, p), tid); }
      } else {
        LeaveOfPriority(rest, tid, p);
        LeaveBehind(w, rest, tid);
        LeaveBehind(w, OfPriority(rest, p), tid);
        OfPriorityBehind(w, Leave(rest, tid), p);
        assert Leave([w] + rest, tid) == [w] + Leave(rest, tid);
        assert w.prio != p ==> OfPriority(q, p) == OfPriority(rest, p);
      }
    }
  }

  lemma LeaveBehind(w: Waiter, q: seq<Waiter>, tid: nat)
    requires w.tid != tid
    ensures Leave([w] + q, tid) == [w] + Leave(q, tid)
  {
    assert ([w] + q)[1..] == q;
    var k := Where(q, tid);
    assert Where([w] + q, tid) == 1 + k;
    if k < |q| {
      assert RemoveAt([w] + q, 1 + k) == [w] + RemoveAt(q, k);
    }
  }

  lemma {:induction false} JoinsInTurn(flag: Flag, q: seq<Waiter>, arrived: seq<Waiter>, w: Waiter)
    requires InTurn(flag, q, arrived) && w.tid !in Tids(q)
    ensures InTurn(flag, Enqueue(flag, q, w), arrived + [w])
  {
    SameMembers(flag, q, arrived);
    EnqueueMembers(flag, q, w);
    EnqueueMembers(Fifo, arrived, w);
    if flag == Prio {
      EnqueueKeepsSorted(q, w);
      forall p ensures OfPriority(Enqueue(flag, q, w), p) == OfPriority(arrived + [w], p) {
        EnqueueIsStable(Prio, q, w, p);
        EnqueueIsStable(Fifo, arrived, w, p);
        assert OfPriority(q, p) == OfPriority(arrived, p);
      }
    }
  }

  lemma {:induction false} LeavesInTurn(flag: Flag, q: seq<Waiter>, arrived: seq<Waiter>, tid: nat)
    requires InTurn(flag, q, arrived)
    ensures InTurn(flag, Leave(q, tid), Leave(arrived, tid))
  {
    LeaveMembers(q, tid);
    LeaveMembers(arrived, tid);
    if flag == Prio {
      forall p ensures OfPriority(Leave(q, tid), p) == OfPriority(Leave(arrived, tid), p) {
        LeaveOfPriority(q, tid, p);
        LeaveOfPriority(arrived, tid, p);
        assert OfPriority(q, p) == OfPriority(arrived, p);
      }
    }
  }

  /** The first of the queue is the one whose turn it is. */
  lemma {:induction false} FirstIsNext(flag: Flag, q: seq<Waiter>, arrived: seq<Waiter>) returns (k: nat)
    requires InTurn(flag, q, arrived) && q != []
    ensures Next(flag, arrived, k) && arrived[k] == q[0] && InTurn(flag, q[1..], RemoveAt(arrived, k))
  {
    var w := q[0];
    SameMembers(flag, q, arrived);
    assert w in q;
    k :| k < |arrived| && arrived[k] == w;
    assert InTurn(flag, q[1..], RemoveAt(arrived, k)) by {
      assert Leave(arrived, w.tid) == RemoveAt(arrived, k) by { LeaveIs(arrived, k); }
      assert Leave(q, w.tid) == q[1..] by {
        assert q == [w] + q[1..];
        LeaveFirst(w, q[1..]);
      }
      LeavesInTurn(flag, q, arrived, w.tid);
    }
    match flag {
      case Fifo => EarliestIsNext(q, arrived, k);
      case Prio => MostUrgentIsNext(q, arrived, k);
    }
  }

  /** Those still waiting when the one whose turn it is has been served. */
  ghost function Served(flag: Flag, arrived: seq<Waiter>): seq<Waiter> {
    if k: nat :| Next(flag, arrived, k) then RemoveAt(arrived, k) else arrived
  }

  /** The thread whose turn it is, if anybody waits. */
  ghost function Called(flag: Flag, arrived: seq<Waiter>): set<nat> {
    set k | 0 <= k < |arrived| && Next(flag, arrived, k) :: arrived[k].tid
  }

  lemma ServesInTurn(flag: Flag, q: seq<Waiter>, arrived: seq<Waiter>)
    requires InTurn(flag, q, arrived)
    ensures InTurn(flag, if q == [] then q else q[1..], Served(flag, arrived))
    ensures Called(flag, arrived) == if q == [] then {} else {q[0].tid}
  {
    SameMembers(flag, q, arrived);
    if q != [] {
      var k := FirstIsNext(flag, q, arrived);
      forall j: nat | Next(flag, arrived, j) ensures j == k {}
    }
  }

  lemma EarliestIsNext(q: seq<Waiter>, arrived: seq<Waiter>, k: nat)
    requires InTurn(Fifo, q, arrived) && q != [] && k < |arrived| && arrived[k] == q[0]
    ensures Next(Fifo, arrived, k)
  {
  }

  lemma {:induction false} MostUrgentIsNext(q: seq<Waiter>, arrived: seq<Waiter>, k: nat)
    requires InTurn(Prio, q, arrived) && q != [] && k < |arrived| && arrived[k] == q[0]
    ensures Next(Prio, arrived, k)
  {
    var w := q[0];
    SameMembers(Prio, q, arrived);
    assert OfPriority(arrived, w.prio) == OfPriority(q, w.prio) == [w] + OfPriority(q[1..], w.prio);
    forall i | 0 <= i < |arrived| ensures w.prio <= arrived[i].prio && (i < k ==> w.prio < arrived[i].prio) {
      assert arrived[i] in q;
      if i < k && arrived[i].prio == w.prio {
        FirstOfPriority(arrived, i, k);
      }
    }
  }

  /** If a waiter comes before another one of the same priority, the other one is not the first of them. */
  lemma {:induction false} FirstOfPriority(q: seq<Waiter>, i: nat, k: nat)
    requires i < k < |q| && q[i].prio == q[k].prio && Distinct(q)
    ensures OfPriority(q, q[k].prio) != [] && OfPriority(q, q[k].prio)[0] != q[k]
  {
    if q[0].prio != q[k].prio {
      FirstOfPriority(q[1..], i - 1, k - 1);
    }
  }
}

/** A wait queue together with the threads that were resumed from it and have not looked again:
    the loop `while (unavailable) { suspend; schedule; }` of mailboxes, message queues and pools. */
module Parking {
  import opened WaitQueue

  datatype Lot = Lot(waiting: seq<Waiter>, ready: set<nat>)

  const EMPTY := Lot([], {})

  /** A thread looks (again) at the resource. */
  function Look(l: Lot, tid: nat): Lot {
    l.(ready := l.ready - {tid})
  }

  /** It finds nothing and is suspended. */
  function Park(l: Lot, flag: Flag, w: Waiter): Lot {
    l.(waiting := Enqueue(flag, l.waiting, w))
  }

  /** rt_mp_alloc's rt_list_insert_after: the newcomer goes to the front. */
  function ParkFirst(l: Lot, w: Waiter): Lot {
    l.(waiting := [w] + l.waiting)
  }

  /** A unit becomes available: the first waiter is resumed. */
  function Wake(l: Lot): Lot {
    if l.waiting == [] then l else Lot(l.waiting[1..], l.ready + {l.waiting[0].tid})
  }

  /** A timer runs out. */
  function Expire(l: Lot, tid: nat): Lot {
    l.(waiting := Leave(l.waiting, tid))
  }

  /** All waiters are sent away with an error. */
  function Flush(l: Lot): Lot {
    l.(waiting := [])
  }

  ghost predicate Suspended(l: Lot, tid: nat) {
    tid in Tids(l.waiting)
  }

  ghost predicate Ok(l: Lot) {
    Distinct(l.waiting) && Tids(l.waiting) !! l.ready
  }

  /** Whoever waits does so for good reason: the available units are at most those
      that threads already resumed have yet to pick up. */
  ghost predicate Covered(l: Lot, units: int) {
    Ok(l) && (l.waiting != [] ==> units <= |l.ready|)
  }

  /** With the priority flag the waiters are sorted, so that the one to be resumed is a most urgent one. */
  ghost predicate Ordered(l: Lot, flag: Flag) {
    flag == Prio ==> Sorted(l.waiting)
  }

  lemma {:induction false} OrderKept(l: Lot, flag: Flag, w: Waiter)
    requires Ordered(l, flag)
    ensures Ordered(Look(l, w.tid), flag) && Ordered(Park(Look(l, w.tid), flag, w), flag) && Ordered(Wake(l), flag)
    ensures Ordered(Expire(l, w.tid), flag) && Ordered(Flush(l), flag)
  {
    if flag == Prio {
      EnqueueKeepsSorted(l.waiting, w);
      LeaveKeepsSorted(l.waiting, w.tid);
    }
  }

  lemma {:induction false} WakeCovers(l: Lot, units: int)
    requires Covered(l, units)
    ensures Covered(Wake(l), units + 1)
  {
    if l.waiting != [] {
      TailMembers(l.waiting);
      assert l.waiting[0].tid in Tids(l.waiting);
    }
  }

  lemma {:induction false} LookCovers(l: Lot, tid: nat, units: int)
    requires Covered(l, units)
    ensures Covered(Look(l, tid), units - 1)
  {
    assert tid in l.ready ==> |l.ready - {tid}| == |l.ready| - 1;
    assert tid !in l.ready ==> l.ready - {tid} == l.ready;
  }

  lemma {:induction false} ParkCovers(l: Lot, flag: Flag, w: Waiter)
    requires Ok(l) && !Suspended(l, w.tid)
    ensures Covered(Park(Look(l, w.tid), flag, w), 0)
  {
    EnqueueMembers(flag, l.waiting, w);
  }

  /** Whoever is suspended waits, and whoever has looked is not counted as resumed any more. */
  lemma ParkSuspends(l: Lot, flag: Flag, w: Waiter)
    requires Ok(l) && !Suspended(l, w.tid)
    ensures w.tid !in Look(l, w.tid).ready && !Suspended(Look(l, w.tid), w.tid)
    ensures Suspended(Park(Look(l, w.tid), flag, w), w.tid) && Suspended(ParkFirst(Look(l, w.tid), w), w.tid)
    ensures Ordered(l, flag) ==> Queued(flag, l.waiting, Park(Look(l, w.tid), flag, w).waiting, w)
  {
    EnqueueMembers(flag, l.waiting, w);
    if Ordered(l, flag) { EnqueuePlace(flag, l.waiting, w); }
    assert w in [w] + l.waiting;
  }

  lemma {:induction false} ParkFirstCovers(l: Lot, w: Waiter)
    requires Ok(l) && !Suspended(l, w.tid)
    ensures Covered(ParkFirst(Look(l, w.tid), w), 0)
  {
    assert [w] + l.waiting == InsertAt(l.waiting, 0, w);
    InsertMembers(l.waiting, 0, w);
    InsertDistinct(l.waiting, 0, w);
  }

  lemma {:induction false} ExpireCovers(l: Lot, tid: nat, units: int)
    requires Covered(l, units)
    ensures Covered(Expire(l, tid), units)
  {
    LeaveMembers(l.waiting, tid);
  }

  lemma FewerUnits(l: Lot, units: int, fewer: int)
    requires Covered(l, units) && fewer <= units
    ensures Covered(l, fewer)
  {
  }
}

/** Runs of all that can happen to a wait queue and the threads resumed from it. */
module ParkingTurns {
  import opened WaitQueue
  import opened Turns
  import opened Parking

  datatype Turn = Looks(tid: nat) | Parks(w: Waiter) | Wakes | Expires(tid: nat) | Flushes

  ghost function Takes(l: Lot, flag: Flag, t: Turn): Lot {
    match t
    case Looks(tid) => Look(l, tid)
    case Parks(w) => if Suspended(l, w.tid) then l else Park(l, flag, w)
    case Wakes => Wake(l)
    case Expires(tid) => Expire(l, tid)
    case Flushes => Flush(l)
  }

  ghost function TakeAll(flag: Flag, ts: seq<Turn>): Lot
    decreases |ts|
  {
    if ts == [] then EMPTY else Takes(TakeAll(flag, ts[..|ts| - 1]), flag, ts[|ts| - 1])
  }

  /** Who came and has not left yet, in the order they came, and who was resumed and has not looked since. */
  datatype Book = Book(arrived: seq<Waiter>, resumed: set<nat>)

  ghost function Enter(b: Book, flag: Flag, t: Turn): Book {
    match t
    case Looks(tid) => b.(resumed := b.resumed - {tid})
    case Parks(w) => if w.tid in Tids(b.arrived) then b else b.(arrived := b.arrived + [w])
    case Wakes => Book(Served(flag, b.arrived), b.resumed + Called(flag, b.arrived))
    case Expires(tid) => b.(arrived := Leave(b.arrived, tid))
    case Flushes => b.(arrived := [])
  }

  ghost function EnterAll(flag: Flag, ts: seq<Turn>): Book
    decreases |ts|
  {
    if ts == [] then Book([], {}) else Enter(EnterAll(flag, ts[..|ts| - 1]), flag, ts[|ts| - 1])
  }

  /** Over every run a wake-up goes to the thread whose turn it is: without the priority flag the one that came first,
      otherwise the first to come of the most urgent ones, whatever time-outs and flushes happened in between;
      and the threads resumed are those that have not looked since. */
  lemma {:induction false} RunServesInTurn(flag: Flag, ts: seq<Turn>)
    ensures InTurn(flag, TakeAll(flag, ts).waiting, EnterAll(flag, ts).arrived)
    ensures TakeAll(flag, ts).ready == EnterAll(flag, ts).resumed
  {
    if ts != [] {
      var us, t := ts[..|ts| - 1], ts[|ts| - 1];
      RunServesInTurn(flag, us);
      var l, b := TakeAll(flag, us), EnterAll(flag, us);
      SameMembers(flag, l.waiting, b.arrived);
      match t {
        case Parks(w) => if !Suspended(l, w.tid) { JoinsInTurn(flag, l.waiting, b.arrived, w); }
        case Wakes => ServesInTurn(flag, l.waiting, b.arrived);
        case Expires(tid) => LeavesInTurn(flag, l.waiting, b.arrived, tid);
        case _ =>
      }
    }
  }
}

/** A queue of messages with the record of those accepted and those taken off. */
module Delivery {
  datatype Books<T> = Books(sent: seq<T>, taken: seq<T>, waiting: seq<T>)

  /** What one section does to the queue. */
  datatype Move<T> = Stay | Back(v: T) | Front(v: T) | Off

  function Book<T>(b: Books<T>, m: Move<T>): Books<T> {
    match m
    case Stay => b
    case Back(v) => Books(b.sent + [v], b.taken, b.waiting + [v])
    case Front(v) => Books(b.sent + [v], b.taken, [v] + b.waiting)
    case Off => if b.waiting == [] then b else Books(b.sent, b.taken + [b.waiting[0]], b.waiting[1..])
  }

  /** What was taken off and what waits are, counted with multiplicity, what was accepted. */
  ghost predicate Conserved<T(!new)>(b: Books<T>) {
    multiset(b.taken) + multiset(b.waiting) == multiset(b.sent)
  }

  /** First in, first out. */
  ghost predicate InOrder<T(!new)>(b: Books<T>) {
    b.sent == b.taken + b.waiting
  }

  lemma {:induction false} BookConserves<T(!new)>(b: Books<T>, m: Move<T>)
    requires Conserved(b)
    ensures Conserved(Book(b, m))
  {
    match m {
      case Stay =>
      case Back(v) => assert multiset(b.sent + [v]) == multiset(b.sent) + multiset{v};
      case Front(v) => assert multiset(b.sent + [v]) == multiset(b.sent) + multiset{v};
      case Off =>
        if b.waiting != [] {
          assert b.waiting == [b.waiting[0]] + b.waiting[1..];
        }
    }
  }

  lemma {:induction false} BookInOrder<T(!new)>(b: Books<T>, m: Move<T>)
    requires InOrder(b) && !m.Front?
    ensures InOrder(Book(b, m))
  {
  }
}
