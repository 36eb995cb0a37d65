/** What the block pool of mempool.c does. */
module MemPoolSpec {
  import opened WaitQueue
  import opened Parking
  import opened RtDef

  /** `free` lists the free blocks in the order they will be handed out, `out` is the set of those handed out. */
  datatype Pool = Pool(total: nat, free: seq<nat>, out: set<nat>, lot: Lot)

  datatype AllocResult = Block(b: nat) | NoBlock | Parked

  /** rt_mp_alloc: one look at the pool, on entry or after having been resumed. Unlike on the other
      objects, a thread that has to wait goes to the front of the queue. */
  function Alloc(s: Pool, w: Waiter, time: int): (Pool, AllocResult) {
    var t := s.(lot := Look(s.lot, w.tid));
    if s.free == [] then
      if time == 0 then (t, NoBlock) else (t.(lot := ParkFirst(t.lot, w)), Parked)
    else (t.(free := s.free[1..], out := s.out + {s.free[0]}), Block(s.free[0]))
  }

  /** rt_mp_free. */
  function Free(s: Pool, b: nat): Pool {
    s.(free := [b] + s.free, out := s.out - {b}, lot := Wake(s.lot))
  }

  datatype Event = Allocs(w: Waiter, time: int) | Frees(b: nat) | Expires(tid: nat)

  ghost predicate Enabled(s: Pool, e: Event) {
    match e
    case Allocs(w, _) => !Suspended(s.lot, w.tid)
    case Frees(b) => b in s.out
    case Expires(_) => true
  }

  ghost function Step(s: Pool, e: Event): Pool {
    if !Enabled(s, e) then s else
    match e
    case Allocs(w, time) => Alloc(s, w, time).0
    case Frees(b) => Free(s, b)
    case Expires(tid) => s.(lot := Expire(s.lot, tid))
  }

  ghost function Run(s: Pool, es: seq<Event>): Pool
    decreases |es|
  {
    if es == [] then s else Step(Run(s, es[..|es| - 1]), es[|es| - 1])
  }

  function Upto(n: nat): (q: seq<nat>)
    ensures |q| == n && forall i :: 0 <= i < n ==> q[i] == i
  {
    seq(n, i => i)
  }

  function Init(total: nat): Pool {
    Pool(total, Upto(total), {}, EMPTY)
  }

  /** Every block is either free, once, or handed out. */
  ghost predicate Conserved(s: Pool) {
    && (forall i, j :: 0 <= i < j < |s.free| ==> s.free[i] != s.free[j])
    && (forall b :: b in s.free ==> b !in s.out)
    && (forall b: nat :: b < s.total <==> b in s.free || b in s.out)
  }

  lemma {:induction false} StepConserves(s: Pool, e: Event)
    requires Conserved(s)
    ensures Conserved(Step(s, e)) && Step(s, e).total == s.total
  {
    if Enabled(s, e) && !e.Expires? {
      var t := Step(s, e);
      if e.Allocs? && s.free != [] {
        assert s.free == [s.free[0]] + s.free[1..];
        assert s.free[0] in s.free;
        forall b ensures b in s.free <==> b in t.free || b == s.free[0] {}
      } else if e.Frees? {
        forall b ensures b in t.free <==> b in s.free || b == e.b {}
      }
    }
  }

  lemma {:induction false} StepCovers(s: Pool, e: Event)
    requires Covered(s.lot, |s.free|)
    ensures Covered(Step(s, e).lot, |Step(s, e).free|)
  {
    if Enabled(s, e) {
      match e {
        case Allocs(w, time) =>
          LookCovers(s.lot, w.tid, |s.free|);
          ParkFirstCovers(s.lot, w);
        case Frees(b) => WakeCovers(s.lot, |s.free|);
        case Expires(tid) => ExpireCovers(s.lot, tid, |s.free|);
      }
    }
  }

  /** Over every run blocks are conserved and no wakeup is lost. */
  lemma {:induction false} RunKeepsInv(total: nat, es: seq<Event>)
    ensures var s := Run(Init(total), es); Conserved(s) && s.total == total && Covered(s.lot, |s.free|)
  {
    if es == [] {
      forall b: nat | b < total ensures b in Upto(total) {
        assert Upto(total)[b] == b;
      }
    } else {
      RunKeepsInv(total, es[..|es| - 1]);
      StepConserves(Run(Init(total), es[..|es| - 1]), es[|es| - 1]);
      StepCovers(Run(Init(total), es[..|es| - 1]), es[|es| - 1]);
    }
  }

  /** What an allocation answers, over every run, depends on how many blocks are handed out: it gets one if and only
      if that is not all of them; otherwise a timeout of 0 gives up and any other one waits. A block just given back
      is the next one to be handed out. */
  lemma RunAnswers(total: nat, es: seq<Event>, w: Waiter, time: int, b: nat)
    requires !Suspended(Run(Init(total), es).lot, w.tid)
    ensures var s := Run(Init(total), es); var (t, r) := Alloc(s, w, time);
            && (r.Block? <==> |s.out| < total) && (r == NoBlock <==> |s.out| == total && time == 0) && (r == Parked <==> |s.out| == total && time != 0)
            && (r.Block? ==> r.b < total && r.b !in s.out && t.out == s.out + {r.b}) && (!r.Block? ==> t.out == s.out)
            && (Suspended(t.lot, w.tid) <==> r == Parked) && w.tid !in t.lot.ready
            && var (u, again) := Alloc(Free(s, b), w, time); again == Block(b) && u.free == s.free
  {
    var s := Run(Init(total), es);
    RunKeepsInv(total, es);
    CountBlocks(s);
    ParkSuspends(s.lot, Fifo, w);
    if s.free != [] {
      assert s.free[0] in s.free;
    }
  }

  lemma {:induction false} CountBlocks(s: Pool)
    requires Conserved(s)
    ensures |s.free| + |s.out| == s.total
  {
    var f := set b | b in s.free;
    CountFree(s.free, f);
    forall b: nat ensures b in f + s.out <==> b in Upto(s.total) {
      if b < s.total {
        assert Upto(s.total)[b] == b;
      }
    }
    CountFree(Upto(s.total), f + s.out);
    assert f !! s.out;
  }

  lemma {:induction false} CountFree(q: seq<nat>, f: set<nat>)
    requires (forall i, j :: 0 <= i < j < |q| ==> q[i] != q[j]) && forall b :: b in f <==> b in q
    ensures |f| == |q|
  {
    if q != [] {
      assert q == [q[0]] + q[1..];
      CountFree(q[1..], f - {q[0]});
    }
  }

  // ----- who is resumed -----

  /** The pool with the threads still waiting, in the order they came. */
  datatype Log = Log(pool: Pool, arrived: seq<Waiter>)

  ghost function LogStep(l: Log, e: Event): Log {
    Log(Step(l.pool, e),
        if !Enabled(l.pool, e) then l.arrived else
        match e
        case Allocs(w, time) => if Alloc(l.pool, w, time).1 == Parked then l.arrived + [w] else l.arrived
        case Frees(_) => if l.pool.lot.waiting == [] then l.arrived else Leave(l.arrived, l.pool.lot.waiting[0].tid)
        case Expires(tid) => Leave(l.arrived, tid))
  }

  ghost function LogRun(l: Log, es: seq<Event>): Log
    decreases |es|
  {
    if es == [] then l else LogStep(LogRun(l, es[..|es| - 1]), es[|es| - 1])
  }

  /** `q` is `a` from its end. */
  ghost predicate Backwards(q: seq<Waiter>, a: seq<Waiter>) {
    |q| == |a| && forall i :: 0 <= i < |q| ==> q[i] == a[|a| - 1 - i]
  }

  lemma {:induction false} WhereBackwards(q: seq<Waiter>, a: seq<Waiter>, tid: nat)
    requires Backwards(q, a) && Distinct(q)
    ensures Where(q, tid) + Where(a, tid) == |q| - 1 || Where(q, tid) == Where(a, tid) == |q|
  {
    var k, j := Where(q, tid), Where(a, tid);
    assert k < |q| ==> a[|q| - 1 - k] == q[k];
    assert j < |q| ==> q[|q| - 1 - j] == a[j];
  }

  lemma {:induction false} RemoveBackwards(q: seq<Waiter>, a: seq<Waiter>, k: nat)
    requires Backwards(q, a) && k < |q|
    ensures Backwards(RemoveAt(q, k), RemoveAt(a, |q| - 1 - k))
  {
  }

  lemma {:induction false} LeaveBackwards(q: seq<Waiter>, a: seq<Waiter>, tid: nat)
    requires Backwards(q, a) && Distinct(q)
    ensures Backwards(Leave(q, tid), Leave(a, tid))
  {
    WhereBackwards(q, a, tid);
    if Where(q, tid) < |q| {
      RemoveBackwards(q, a, Where(q, tid));
    }
  }

  lemma {:induction false} LogStepBackwards(l: Log, e: Event)
    requires Backwards(l.pool.lot.waiting, l.arrived) && Ok(l.pool.lot)
    ensures Backwards(LogStep(l, e).pool.lot.waiting, LogStep(l, e).arrived)
  {
    var q := l.pool.lot.waiting;
    if e.Expires? {
      LeaveBackwards(q, l.arrived, e.tid);
    } else if e.Frees? && q != [] {
      LeaveBackwards(q, l.arrived, q[0].tid);
      assert Leave(q, q[0].tid) == q[1..];
    }
  }

  /** Over every run the queue is the reverse of the order in which the waiting threads came, so a free resumes
      the one that came last; it resumes the one that has waited longest if and only if nobody else waits. */
  lemma {:induction false} RunIsLastInFirstOut(total: nat, es: seq<Event>, b: nat)
    ensures var l := LogRun(Log(Init(total), []), es);
            && l.pool == Run(Init(total), es) && Backwards(l.pool.lot.waiting, l.arrived)
            && (l.arrived != [] ==>
                  var ready := Free(l.pool, b).lot.ready;
                  && ready == l.pool.lot.ready + {l.arrived[|l.arrived| - 1].tid}
                  && (l.arrived[0].tid in ready <==> |l.arrived| == 1))
  {
    if es != [] {
      RunIsLastInFirstOut(total, es[..|es| - 1], b);
      RunKeepsInv(total, es[..|es| - 1]);
      LogStepBackwards(LogRun(Log(Init(total), []), es[..|es| - 1]), es[|es| - 1]);
    }
    RunKeepsInv(total, es);
    var l := LogRun(Log(Init(total), []), es);
    if l.arrived != [] {
      var q := l.pool.lot.waiting;
      assert q[|q| - 1] == l.arrived[0] && q[|q| - 1].tid in Tids(q);
    }
  }

  /** For example, of two threads that wait for the one block of a pool the later one is resumed. */
  lemma LaterIsResumed()
    ensures var s := Step(Init(1), Allocs(Waiter(0, 7), -1));
            var t := Step(Step(s, Allocs(Waiter(1, 7), -1)), Allocs(Waiter(2, 7), -1));
            Step(t, Frees(0)).lot == Lot([Waiter(1, 7)], {2})
  {
    var s := Step(Init(1), Allocs(Waiter(0, 7), -1));
    assert s == Pool(1, [], {0}, EMPTY);
    var r := Step(s, Allocs(Waiter(1, 7), -1));
    assert r.lot == Lot([Waiter(1, 7)], {});
    var t := Step(r, Allocs(Waiter(2, 7), -1));
    assert t.lot == Lot([Waiter(2, 7), Waiter(1, 7)], {});
    assert t.out == {0};
  }

  // ----- where the blocks lie -----

  const PTR_SIZE: nat := 4

  /** What a block takes in the pool's memory: a pointer, and the size asked for, rounded up. */
  function Unit(block_size: nat): nat {
    AlignUp(block_size) + PTR_SIZE
  }

  /** Block `b` of a pool starts with the pointer, its payload follows. */
  function PayloadOf(b: nat, block_size: nat): nat {
    b * Unit(block_size) + PTR_SIZE
  }

  /** The number of blocks rt_mp_init puts into `size` bytes. */
  function TotalCount(size: nat, block_size: nat): nat {
    size / 4 * 4 / Unit(block_size)
  }

  /** It is as many as fit: `n` blocks fit into the memory, rounded down, if and only if `n` is at most that. */
  lemma CountExactly(size: nat, block_size: nat, n: nat)
    ensures n <= TotalCount(size, block_size) <==> n * (AlignUp(block_size) + 4) <= size - size % 4
  {
    UnitsFit(size / 4 * 4, Unit(block_size), n);
  }

  /** Payloads of different blocks are disjoint, even from each other's headers, and inside the pool's memory; they
      have room for the size asked for if and only if rounding it up does not wrap around. */
  lemma PayloadsDisjoint(b: nat, c: nat, size: nat, block_size: nat)
    requires b < c < TotalCount(size, block_size) && block_size < WORD
    ensures PayloadOf(b, block_size) + AlignUp(block_size) <= PayloadOf(c, block_size) - PTR_SIZE
    ensures PayloadOf(c, block_size) + AlignUp(block_size) <= size
    ensures AlignUp(block_size) >= block_size <==> block_size <= 0xffff_fffc
  {
    UnitsApart(Unit(block_size), size / 4 * 4, b, c);
  }

  /** Where rt_mp_init writes the link that ends the free list, relative to the pool's memory. */
  function LastLink(size: nat, block_size: nat): int {
    (TotalCount(size, block_size) - 1) * Unit(block_size)
  }

  /** That link lies inside the pool if and only if the pool has room for a block. */
  lemma LastLinkInside(size: nat, block_size: nat)
    ensures 0 <= LastLink(size, block_size) && LastLink(size, block_size) + PTR_SIZE <= size <==> TotalCount(size, block_size) > 0
  {
    var n, unit := TotalCount(size, block_size), Unit(block_size);
    if n > 0 {
      assert n * unit <= size / 4 * 4;
      assert (n - 1) * unit == n * unit - unit;
      NonzeroMultiple(n, unit);
    } else {
      assert LastLink(size, block_size) == -unit;
    }
  }
}

/** The pool as mempool.c keeps it: the first word of a free block links to the next free one,
    that of a block handed out names the pool. */
module MemPool {
  import opened WaitQueue
  import opened Parking
  import opened Links
  import opened MemPoolSpec
  import opened RtList

  const OWNED: int := -2   // the address of the pool in a block's header

  class MemPool {
    const header: array<int>   // the first word of each block
    var block_list: int
    var block_free_count: nat
    const suspend_thread: Node   // the head of the wait list
    ghost var ring: seq<Node>    // the list's nodes, the head first
    ghost var free: seq<nat>
    ghost var out: set<nat>
    ghost var ready: set<nat>

    ghost function State(): Pool
      requires |ring| > 0
      reads this, ring
    {
      Pool(header.Length, free, out, Lot(Waiting(ring), ready))
    }

    ghost predicate Listed()
      reads this, ring
    {
      Ring(ring) && ring[0] == suspend_thread && Distinct(Waiting(ring))
    }

    /** The free list is acyclic, as long as the counter says, and headers of the other blocks name the pool. */
    ghost predicate Valid()
      reads this, header, ring
    {
      && Listed() && Conserved(State()) && Chained(header[..], block_list, free) && block_free_count == |free|
      && forall b :: b in out ==> b < header.Length && header[b] == OWNED
    }

    /** rt_mp_init for a pool with at least one block. */
    constructor (memory: array<int>)
      requires memory.Length > 0
      modifies memory
      ensures Valid() && State() == Init(memory.Length) && header == memory
      ensures fresh(suspend_thread) && ring == [suspend_thread]
    {
      var head := new Node(0, 0);
      header, block_free_count, suspend_thread, ring := memory, memory.Length, head, [head];
      free, out, ready := Upto(memory.Length), {}, {};
      block_list := 0;
      new;
      for offset := 0 to memory.Length
        invariant forall i :: 0 <= i < offset ==> memory[i] == i + 1
        modifies memory
      {
        memory[offset] := offset + 1;
      }
      memory[memory.Length - 1] := NIL;
      forall i: nat | i < |free| ensures Links.Link(header[..], free, i) {}
      RunKeepsInv(memory.Length, []);
    }

    /** One section of rt_mp_alloc. */
    method Alloc(thread: Node, time: int) returns (r: AllocResult)
      requires Valid() && thread !in ring && thread.tid !in Tids(Waiting(ring))   // it runs, so it does not wait
      modifies this, header, ring, thread
      ensures Valid()
      ensures (State(), r) == MemPoolSpec.Alloc(old(State()), Waiter(thread.tid, old(thread.current_priority)), time)
      ensures ring == if r == Parked then InsertAt(old(ring), 1, thread) else old(ring)
    {
      ghost var s, w := State(), Waiter(thread.tid, thread.current_priority);
      ready := ready - {w.tid};
      if block_free_count == 0 {
        if time == 0 {
          return NoBlock;
        }
        Park(thread);
        return Parked;
      }
      ghost var t := MemPoolSpec.Alloc(s, w, time).0;
      assert Conserved(t) by { AllocConserves(s, w, time); }
      var b := block_list;
      TakeBlock();
      out := out + {b};
      assert State() == t;
      return Block(b);
    }

    /** The thread goes right behind the head of the wait list. */
    method Park(thread: Node)
      requires Listed() && thread !in ring && thread.tid !in Tids(Waiting(ring))
      modifies this`ring, ring, thread
      ensures Listed() && ring == InsertAt(old(ring), 1, thread)
      ensures Waiting(ring) == [Waiter(thread.tid, old(thread.current_priority))] + old(Waiting(ring))
    {
      InsertDistinct(Waiting(ring), 0, Waiter(thread.tid, thread.current_priority));
      ring := LinkFirst(suspend_thread, thread, ring);
    }

    /** The pointer half of handing out the first free block. */
    method TakeBlock()
      requires Chained(header[..], block_list, free) && block_free_count == |free| > 0
      requires forall i, j :: 0 <= i < j < |free| ==> free[i] != free[j]
      modifies this`block_list, this`block_free_count, this`free, header
      ensures Chained(header[..], block_list, free) && block_free_count == |free|
      ensures free == old(free)[1..] && old(block_list) == old(free)[0] < header.Length
      ensures header[..] == old(header[..])[old(free)[0] := OWNED]
    {
      block_free_count := block_free_count - 1;
      var block_ptr := block_list;
      Pop(header[..], block_list, free);
      block_list := header[block_ptr];
      free := free[1..];
      WriteOutside(header[..], block_list, free, block_ptr, OWNED);
      header[block_ptr] := OWNED;
    }

    /** rt_mp_free of a block that the pool has handed out. */
    method Free(b: nat)
      requires Valid() && b in out
      modifies this, header, ring
      ensures Valid() && State() == MemPoolSpec.Free(old(State()), b)
      ensures ring == if |old(ring)| > 1 then RemoveAt(old(ring), 1) else old(ring)
    {
      ghost var s := State();
      StepConserves(s, Frees(b));
      PutBlock(b);
      out := out - {b};
      ResumeFirst();
      assert State() == Step(s, Frees(b));
    }

    /** The timer of a suspended thread runs out: its node is unlinked, wherever it stands. */
    method TimeOut(thread: Node, ghost k: nat)
      requires Valid() && 0 < k < |ring| && ring[k] == thread
      modifies this`ring, ring
      ensures Valid() && State() == Step(old(State()), Expires(thread.tid)) && ring == RemoveAt(old(ring), k)
    {
      LeaveIs(Waiting(ring), k - 1);
      Drop(thread, k);
    }

    /** A thread leaves the wait list. */
    method Drop(thread: Node, ghost k: nat)
      requires Listed() && 0 < k < |ring| && ring[k] == thread
      modifies this`ring, ring
      ensures Listed() && ring == RemoveAt(old(ring), k) && Waiting(ring) == RemoveAt(old(Waiting(ring)), k - 1)
    {
      RemoveMembers(Waiting(ring), k - 1);
      ring := Unlink(thread, ring, k);
    }

    /** The pointer half of putting a block at the front of the free list. */
    method PutBlock(b: nat)
      requires Chained(header[..], block_list, free) && block_free_count == |free| && b < header.Length && b !in free
      modifies this`block_list, this`block_free_count, this`free, header
      ensures Chained(header[..], block_list, free) && block_free_count == |free|
      ensures free == [b] + old(free) && forall i :: 0 <= i < header.Length && i != b ==> header[i] == old(header[i])
    {
      block_free_count := block_free_count + 1;
      WriteOutside(header[..], block_list, free, b, block_list);
      header[b] := block_list;
      Push(header[..], block_list, free, b);
      block_list := b;
      free := [b] + free;
    }

    /** If a thread waits, the first one is resumed. */
    method ResumeFirst()
      requires Listed()
      modifies this`ring, this`ready, ring
      ensures Listed() && Lot(Waiting(ring), ready) == Wake(old(Lot(Waiting(ring), ready)))
      ensures ring == if |old(ring)| > 1 then RemoveAt(old(ring), 1) else old(ring)
    {
      var empty := IsEmpty(suspend_thread, ring);
      if !empty {
        assert Linked(ring, 0);
        var thread := suspend_thread.next;
        Drop(thread, 1);
        ready := ready + {thread.tid};
      }
    }
  }

  lemma AllocConserves(s: Pool, w: Waiter, time: int)
    requires Conserved(s)
    ensures Conserved(MemPoolSpec.Alloc(s, w, time).0)
  {
    var quiet := s.(lot := EMPTY);
    StepConserves(quiet, Allocs(w, time));
  }
}
