/** The circular doubly linked list of rtservice.h, and the suspension of a thread on it. */
module RtList {
  import opened WaitQueue
  import EventSpec

  /** rt_list_t; for a thread's `tlist`, with the fields of the thread around it (rt_list_entry). */
  class Node {
    var next: Node
    var prev: Node
    const tid: nat
    var current_priority: nat
    var event_set: EventSpec.Bits
    var event_info: EventSpec.Flags

    /** rt_list_init. */
    constructor (tid: nat, prio: nat)
      ensures next == this && prev == this && this.tid == tid && current_priority == prio
    {
      next, prev, this.tid, current_priority := this, this, tid, prio;
      event_set, event_info := {}, EventSpec.Flags(false, false, false);
    }
  }

  /** The fields of the thread around a list node have not changed. */
  twostate predicate Same(x: Node)
    reads x
  {
    x.current_priority == old(x.current_priority) && x.event_set == old(x.event_set) && x.event_info == old(x.event_info)
  }

  function Succ(i: nat, n: nat): nat {
    if i + 1 < n then i + 1 else 0
  }

  ghost predicate Linked(c: seq<Node>, i: nat)
    requires i < |c|
    reads c
  {
    c[i].next == c[Succ(i, |c|)] && c[Succ(i, |c|)].prev == c[i]
  }

  /** The nodes of `c`, the list head first, form a ring. */
  ghost predicate Ring(c: seq<Node>)
    reads c
  {
    && |c| > 0
    && (forall i: nat, j: nat {:trigger c[i], c[j]} :: i < j < |c| ==> c[i] != c[j])
    && (forall i: nat {:trigger Linked(c, i)} :: i < |c| ==> Linked(c, i))
  }

  /** The place a node inserted before `c[k]` gets; before the head is at the end. */
  function BeforePlace(k: nat, n: nat): nat {
    if k == 0 then n else k
  }

  /** rt_list_insert_after. */
  method InsertAfter(l: Node, n: Node, ghost c: seq<Node>, ghost k: nat)
    requires Ring(c) && k < |c| && l == c[k] && n !in c
    modifies c, n
    ensures Ring(InsertAt(c, k + 1, n))
    ensures forall x :: x in c || x == n ==> Same(x)
  {
    assert Linked(c, k);
    l.next.prev := n;
    n.next := l.next;
    l.next := n;
    n.prev := l;
    ghost var d := InsertAt(c, k + 1, n);
    forall i: nat | i < |d| ensures Linked(d, i) {
      if i != k && i != k + 1 {
        assert old(Linked(c, if i < k then i else i - 1));
      }
    }
  }

  /** rt_list_insert_before. */
  method InsertBefore(l: Node, n: Node, ghost c: seq<Node>, ghost k: nat)
    requires Ring(c) && k < |c| && l == c[k] && n !in c
    modifies c, n
    ensures Ring(InsertAt(c, BeforePlace(k, |c|), n))
    ensures forall x :: x in c || x == n ==> Same(x)
  {
    ghost var p := BeforePlace(k, |c|) - 1;
    assert Linked(c, p);
    l.prev.next := n;
    n.prev := l.prev;
    l.prev := n;
    n.next := l;
    ghost var d := InsertAt(c, p + 1, n);
    forall i: nat | i < |d| ensures Linked(d, i) {
      if i != p && i != p + 1 {
        assert old(Linked(c, if i < p then i else i - 1));
      }
    }
  }

  /** rt_list_remove of a node other than the head. */
  method Remove(n: Node, ghost c: seq<Node>, ghost k: nat)
    requires Ring(c) && 0 < k < |c| && n == c[k]
    modifies c
    ensures Ring(RemoveAt(c, k)) && n.next == n && n.prev == n
    ensures forall x :: x in c ==> Same(x)
  {
    assert Linked(c, k) && Linked(c, k - 1);
    n.next.prev := n.prev;
    n.prev.next := n.next;
    n.next := n;
    n.prev := n;
    ghost var d := RemoveAt(c, k);
    forall i: nat | i < |d| ensures Linked(d, i) {
      if i != k - 1 {
        assert old(Linked(c, if i < k then i else i + 1));
      }
    }
  }

  /** rt_list_isempty. */
  method IsEmpty(l: Node, ghost c: seq<Node>) returns (empty: bool)
    requires Ring(c) && l == c[0]
    ensures empty <==> |c| == 1
  {
    assert Linked(c, 0);
    empty := l.next == l;
  }

  /** rt_list_len terminates with the number of nodes besides the head. */
  method Len(l: Node, ghost c: seq<Node>) returns (len: nat)
    requires Ring(c) && l == c[0]
    ensures len == |c| - 1
  {
    len := 0;
    var p := l;
    assert Linked(c, 0);
    while p.next != l
      invariant len < |c| && p == c[len] && Linked(c, len)
      decreases |c| - len
    {
      p := p.next;
      len := len + 1;
      assert Linked(c, len);
    }
  }

  /** The wait queue a ring stands for. */
  ghost function Waiting(c: seq<Node>): (q: seq<Waiter>)
    requires |c| > 0
    reads c
    ensures |q| == |c| - 1
    ensures forall i :: 0 <= i < |q| ==> q[i] == Waiter(c[i + 1].tid, c[i + 1].current_priority)
  {
    seq(|c| - 1, i requires 0 <= i < |c| - 1 reads c => Waiter(c[i + 1].tid, c[i + 1].current_priority))
  }

  lemma PositionIs(q: seq<Waiter>, p: nat, k: nat)
    requires k <= |q| && (forall i :: 0 <= i < k ==> q[i].prio <= p) && (k < |q| ==> p < q[k].prio)
    ensures Position(q, p) == k
  {
  }

  /** The search of _ipc_list_suspend: the first thread less urgent than `prio`, the head if there is none. */
  method FindPlace(list: Node, prio: nat, ghost c: seq<Node>) returns (n: Node, ghost k: nat)
    requires Ring(c) && list == c[0]
    ensures 1 <= k <= |c| && n == (if k < |c| then c[k] else list)
    ensures k - 1 == Position(Waiting(c), prio)
  {
    n, k := list.next, 1;
    assert Linked(c, 0);
    while n != list && prio >= n.current_priority
      invariant 1 <= k <= |c| && n == (if k < |c| then c[k] else list)
      invariant forall i :: 0 <= i < k - 1 ==> Waiting(c)[i].prio <= prio
      decreases |c| - k
    {
      assert Linked(c, k);
      n, k := n.next, k + 1;
    }
    PositionIs(Waiting(c), prio, k - 1);
  }

  /** The place in the queue that a thread of priority `p` gets. */
  function PlaceFor(flag: Flag, q: seq<Waiter>, p: nat): (k: nat)
    ensures k <= |q|
  {
    if flag == Fifo then |q| else Position(q, p)
  }

  lemma EnqueueIs(flag: Flag, q: seq<Waiter>, w: Waiter)
    ensures Enqueue(flag, q, w) == InsertAt(q, PlaceFor(flag, q, w.prio), w)
  {
  }

  /** The list half of _ipc_list_suspend. */
  method Suspend(list: Node, thread: Node, flag: Flag, ghost c: seq<Node>) returns (ghost d: seq<Node>)
    requires Ring(c) && list == c[0] && thread !in c
    modifies c, thread
    ensures Ring(d) && d[0] == list
    ensures Waiting(d) == Enqueue(flag, old(Waiting(c)), Waiter(thread.tid, old(thread.current_priority)))
    ensures d == InsertAt(c, 1 + PlaceFor(flag, old(Waiting(c)), old(thread.current_priority)), thread)
    ensures forall x :: x in d <==> x in c || x == thread
    ensures forall x :: x in d ==> Same(x)
  {
    ghost var q, w := Waiting(c), Waiter(thread.tid, thread.current_priority);
    var n, k := list, |c|;
    if flag == Prio {
      n, k := FindPlace(list, thread.current_priority, c);
    }
    EnqueueIs(flag, q, w);
    assert k - 1 == PlaceFor(flag, q, w.prio);
    d := Link(n, thread, c, k);
  }

  /** The thread gets place `k` of the ring, before node `n`; at the end `n` is the head. */
  method Link(n: Node, thread: Node, ghost c: seq<Node>, ghost k: nat) returns (ghost d: seq<Node>)
    requires Ring(c) && 0 < k <= |c| && n == (if k < |c| then c[k] else c[0]) && thread !in c
    modifies c, thread
    ensures Ring(d)
    ensures Waiting(d) == InsertAt(old(Waiting(c)), k - 1, Waiter(thread.tid, old(thread.current_priority)))
    ensures d == InsertAt(c, k, thread) && forall x :: x in d <==> x in c || x == thread
    ensures forall x :: x in d ==> Same(x)
  {
    ghost var q, w := Waiting(c), Waiter(thread.tid, thread.current_priority);
    InsertBefore(n, thread, c, if k < |c| then k else 0);
    d := InsertAt(c, k, thread);
    InsertedNodes(c, k, thread);
    ghost var e := InsertAt(q, k - 1, w);
    forall i | 0 <= i < |e| ensures Waiting(d)[i] == e[i] {
      assert d[i + 1] == if i < k - 1 then c[i + 1] else if i > k - 1 then c[i] else thread;
      assert d[i + 1] in d && Same(d[i + 1]);
    }
    assert Waiting(d) == e;
  }

  lemma InsertedNodes(c: seq<Node>, k: nat, n: Node)
    requires k <= |c|
    ensures forall x :: x in InsertAt(c, k, n) <==> x in c || x == n
  {
    var d := InsertAt(c, k, n);
    assert d[k] == n;
    forall x | x in c ensures x in d {
      var i :| 0 <= i < |c| && c[i] == x;
      assert d[if i < k then i else i + 1] == x;
    }
  }

  /** The list half of a resumption or a time-out: the thread leaves the ring, the others keep their places. */
  method Unlink(thread: Node, ghost c: seq<Node>, ghost k: nat) returns (ghost d: seq<Node>)
    requires Ring(c) && 0 < k < |c| && thread == c[k]
    modifies c
    ensures d == RemoveAt(c, k) && Ring(d) && thread.next == thread.prev == thread
    ensures Waiting(d) == RemoveAt(old(Waiting(c)), k - 1) && forall x :: x in c ==> Same(x)
  {
    ghost var q := Waiting(c);
    Remove(thread, c, k);
    d := RemoveAt(c, k);
    ghost var e := RemoveAt(q, k - 1);
    forall i | 0 <= i < |e| ensures Waiting(d)[i] == e[i] {
      assert d[i + 1] == c[if i < k - 1 then i + 1 else i + 2];
      assert d[i + 1] in c && Same(d[i + 1]);
    }
    assert Waiting(d) == e;
    assert Same(c[k]);
  }

  /** A thread goes to the front of the wait list, as rt_mp_alloc puts it with rt_list_insert_after. */
  method LinkFirst(list: Node, thread: Node, ghost c: seq<Node>) returns (ghost d: seq<Node>)
    requires Ring(c) && list == c[0] && thread !in c
    modifies c, thread
    ensures Ring(d) && d == InsertAt(c, 1, thread)
    ensures Waiting(d) == [Waiter(thread.tid, old(thread.current_priority))] + old(Waiting(c))
  {
    ghost var q, w := Waiting(c), Waiter(thread.tid, thread.current_priority);
    InsertAfter(list, thread, c, 0);
    d := InsertAt(c, 1, thread);
    assert Same(thread);
    ghost var e := [w] + q;
    forall i | 0 <= i < |e| ensures Waiting(d)[i] == e[i] {
      assert d[i + 1] == if i > 0 then c[i] else thread;
      assert i > 0 ==> c[i] in c && Same(c[i]);
    }
    assert Waiting(d) == e;
  }

  /** _ipc_list_resume: the first thread leaves the list. */
  method UnlinkFirst(list: Node, ghost c: seq<Node>) returns (thread: Node, ghost d: seq<Node>)
    requires Ring(c) && list == c[0] && |c| > 1
    modifies c
    ensures thread == c[1] && d == RemoveAt(c, 1) && Ring(d) && thread.next == thread.prev == thread
    ensures Waiter(thread.tid, thread.current_priority) == old(Waiting(c))[0] && Waiting(d) == old(Waiting(c))[1..]
  {
    assert Linked(c, 0) && RemoveAt(Waiting(c), 0) == Waiting(c)[1..];
    thread := list.next;
    d := Unlink(thread, c, 1);
    assert c[1] in c && Same(c[1]);
  }
}
