/** The recursive mutex with priority inheritance of ipc.c. One function is one section with interrupts disabled. */
module MutexSpec {
  import opened WaitQueue
  import opened RtDef

  const VALUE_MAX: nat := 0xffff   // RT_MUTEX_VALUE_MAX
  const HOLD_MAX: nat := 0xff      // RT_MUTEX_HOLD_MAX
  const NOBODY: nat := 0xff        // original_priority while nobody owns the mutex

  /** A mutex. Threads are numbers, a smaller priority is more urgent. */
  datatype Mutex = Mutex(value: nat, hold: nat, owner: Option<nat>, original: nat, waiters: seq<nat>)

  const INIT := Mutex(1, 0, None, NOBODY, [])   // rt_mutex_init

  datatype TakeResult = Taken | TimedOut | Blocked | Full | TakeOverflow
  datatype ReleaseResult = StillHeld | HandedTo(t: nat) | Released | NotOwner | ReleaseOverflow

  ghost predicate WellFormed(m: Mutex, n: nat) {
    && (m.value == 0 ==> m.owner.Some?)
    && (m.owner.Some? ==> m.owner.value < n)
    && Below(m.waiters, n)
  }

  ghost predicate Below(q: seq<nat>, n: nat) {
    forall i :: 0 <= i < |q| ==> q[i] < n
  }

  /** The wait queue with the priorities its threads have now. */
  function View(q: seq<nat>, prio: seq<nat>): (v: seq<Waiter>)
    requires Below(q, |prio|)
    ensures |v| == |q| && forall i :: 0 <= i < |q| ==> v[i] == Waiter(q[i], prio[q[i]])
  {
    seq(|q|, i requires 0 <= i < |q| => Waiter(q[i], prio[q[i]]))
  }

  function Suspend(q: seq<nat>, prio: seq<nat>, t: nat): seq<nat>
    requires t < |prio| && Below(q, |prio|)
  {
    InsertAt(q, Position(View(q, prio), prio[t]), t)
  }

  /** rt_mutex_take by thread `t`, up to the point where it has its answer or is suspended. */
  function Take(m: Mutex, prio: seq<nat>, t: nat, time: int): (Mutex, seq<nat>, TakeResult)
    requires WellFormed(m, |prio|) && t < |prio|
  {
    if m.owner == Some(t) then
      if m.hold < HOLD_MAX then (m.(hold := m.hold + 1), prio, Taken) else (m, prio, Full)
    else if m.value > 0 then
      var mine := m.(value := m.value - 1, owner := Some(t), original := prio[t]);
      if m.hold < HOLD_MAX then (mine.(hold := m.hold + 1), prio, Taken) else (mine, prio, TakeOverflow)
    else if time == 0 then (m, prio, TimedOut)
    else
      var o := m.owner.value;
      var boosted := if prio[t] < prio[o] then prio[o := prio[t]] else prio;
      (m.(waiters := Suspend(m.waiters, boosted, t)), boosted, Blocked)
  }

  /** rt_mutex_release by thread `t`. */
  function Release(m: Mutex, prio: seq<nat>, t: nat): (Mutex, seq<nat>, ReleaseResult)
    requires WellFormed(m, |prio|) && t < |prio|
  {
    if m.owner != Some(t) then (m, prio, NotOwner)
    else
      var less := m.(hold := (m.hold + 0xff) % 0x100);   // an 8-bit counter
      if less.hold != 0 then (less, prio, StillHeld)
      else
        var restored := prio[t := m.original];
        if m.waiters != [] then
          var w := m.waiters[0];
          var handed := less.(owner := Some(w), original := restored[w]);
          if less.hold < HOLD_MAX then (handed.(hold := less.hold + 1, waiters := m.waiters[1..]), restored, HandedTo(w))
          else (handed, restored, ReleaseOverflow)
        else if m.value < VALUE_MAX then
          (less.(value := m.value + 1, owner := None, original := NOBODY), restored, Released)
        else (less, restored, ReleaseOverflow)
  }

  // ----- many threads, many mutexes -----

  /** What a thread is doing: it holds no mutex, holds mutex `i` with `depth` takes not yet released, or waits for it. */
  datatype Doing = Free | Holds(i: nat, depth: int) | Waits(i: nat)

  datatype System = System(mutexes: seq<Mutex>, prio: seq<nat>, doing: seq<Doing>)

  datatype Event = Takes(i: nat, t: nat, time: int) | Releases(i: nat, t: nat) | Expires(t: nat)

  ghost predicate Sane(s: System) {
    |s.doing| == |s.prio| && forall i :: 0 <= i < |s.mutexes| ==> WellFormed(s.mutexes[i], |s.prio|)
  }

  /** Waiting threads do nothing, and no thread takes a mutex while it holds another one. */
  ghost predicate Enabled(s: System, e: Event) {
    Sane(s) &&
    match e
    case Takes(i, t, _) => i < |s.mutexes| && t < |s.doing| && (s.doing[t].Free? || (s.doing[t].Holds? && s.doing[t].i == i))
    case Releases(i, t) => i < |s.mutexes| && t < |s.doing| && !s.doing[t].Waits?
    case Expires(t) => t < |s.doing| && s.doing[t].Waits? && s.doing[t].i < |s.mutexes|
  }

  ghost function DoesTake(d: seq<Doing>, i: nat, t: nat, r: TakeResult): seq<Doing>
    requires t < |d|
  {
    match r
    case Taken => d[t := Holds(i, if d[t].Holds? then d[t].depth + 1 else 1)]
    case Blocked => d[t := Waits(i)]
    case _ => d
  }

  ghost function DoesRelease(d: seq<Doing>, i: nat, t: nat, r: ReleaseResult): seq<Doing>
    requires t < |d| && (r.HandedTo? ==> r.t < |d|)
  {
    match r
    case StillHeld => if d[t].Holds? then d[t := Holds(i, d[t].depth - 1)] else d
    case HandedTo(w) => d[t := Free][w := Holds(i, 1)]
    case Released => d[t := Free]
    case _ => d
  }

  ghost function Step(s: System, e: Event): System {
    if !Enabled(s, e) then s else
    match e
    case Takes(i, t, time) =>
      var (m, prio, r) := Take(s.mutexes[i], s.prio, t, time);
      System(s.mutexes[i := m], prio, DoesTake(s.doing, i, t, r))
    case Releases(i, t) =>
      var (m, prio, r) := Release(s.mutexes[i], s.prio, t);
      System(s.mutexes[i := m], prio, DoesRelease(s.doing, i, t, r))
    case Expires(t) =>
      var i := s.doing[t].i;
      System(s.mutexes[i := Expired(s.mutexes[i], s.prio, t)], s.prio, s.doing[t := Free])
  }

  /** The timer of a waiting thread runs out: it leaves the queue. */
  ghost function Expired(m: Mutex, prio: seq<nat>, t: nat): Mutex
    requires WellFormed(m, |prio|)
  {
    var k := Where(View(m.waiters, prio), t);
    if k < |m.waiters| then m.(waiters := RemoveAt(m.waiters, k)) else m
  }
}

/** What every run keeps when threads hold at most one mutex at a time, however often they take it. */
module MutexInvariant {
  import opened WaitQueue
  import opened RtDef
  import opened MutexSpec

  /** The fields of mutex `i` agree with what the threads are doing; in particular value = 1 iff no owner iff hold = 0. */
  ghost predicate Consistent(m: Mutex, i: nat, doing: seq<Doing>) {
    && (match m.owner
        case None => m == INIT
        case Some(o) => m.value == 0 && 1 <= m.hold <= HOLD_MAX && o < |doing| && doing[o] == Holds(i, m.hold))
    && (forall t: nat :: t in m.waiters <==> t < |doing| && doing[t] == Waits(i))
    && (forall t: nat :: t < |doing| && doing[t].Holds? && doing[t].i == i ==> m.owner == Some(t))
  }

  /** The owner is at least as urgent as every waiter, the waiters are sorted,
      and the priority the owner will fall back to is its own. */
  ghost predicate Urgent(m: Mutex, base: seq<nat>, prio: seq<nat>)
    requires |base| == |prio| && WellFormed(m, |prio|)
  {
    && Sorted(View(m.waiters, prio)) && Distinct(View(m.waiters, prio))
    && (m.owner.Some? ==>
          && m.original == base[m.owner.value] && prio[m.owner.value] <= base[m.owner.value]
          && forall t :: t in m.waiters ==> prio[m.owner.value] <= prio[t])
  }

  /** Threads that hold nothing run at their own priority. */
  ghost predicate Undisturbed(base: seq<nat>, prio: seq<nat>, doing: seq<Doing>)
    requires |base| == |prio| == |doing|
  {
    forall t :: 0 <= t < |doing| && !doing[t].Holds? ==> prio[t] == base[t]
  }

  ghost predicate Inv(s: System, base: seq<nat>) {
    && Sane(s) && |base| == |s.prio|
    && Undisturbed(base, s.prio, s.doing)
    && forall i :: 0 <= i < |s.mutexes| ==> Consistent(s.mutexes[i], i, s.doing) && Urgent(s.mutexes[i], base, s.prio)
  }

  lemma SameView(q: seq<nat>, before: seq<nat>, after: seq<nat>)
    requires |before| == |after| && Below(q, |before|) && forall t :: t in q ==> before[t] == after[t]
    ensures View(q, before) == View(q, after)
  {
  }

  /** A mutex none of whose threads changes priority or activity is not affected. */
  lemma {:induction false} OthersKept(m: Mutex, i: nat, base: seq<nat>, prio: seq<nat>, doing: seq<Doing>, prio': seq<nat>, doing': seq<Doing>)
    requires |base| == |prio| == |doing| == |prio'| == |doing'| && WellFormed(m, |prio|)
    requires Consistent(m, i, doing) && Urgent(m, base, prio)
    requires forall t :: 0 <= t < |doing| && doing[t] != Free && doing[t].i == i ==> prio'[t] == prio[t] && doing'[t] == doing[t]
    requires forall t :: 0 <= t < |doing| && doing'[t] != doing[t] ==> doing'[t] == Free || doing'[t].i != i
    ensures Consistent(m, i, doing') && Urgent(m, base, prio')
  {
    SameView(m.waiters, prio, prio');
  }

  lemma {:induction false} SuspendMembers(q: seq<nat>, k: nat, t: nat)
    requires k <= |q|
    ensures forall x :: x in InsertAt(q, k, t) <==> x in q || x == t
  {
    var r := InsertAt(q, k, t);
    assert r[k] == t;
    forall x | x in q ensures x in r {
      var i :| 0 <= i < |q| && q[i] == x;
      assert r[if i < k then i else i + 1] == x;
    }
  }

  lemma {:induction false} SuspendKeeps(q: seq<nat>, prio: seq<nat>, t: nat)
    requires t < |prio| && t !in q && Below(q, |prio|)
    requires Sorted(View(q, prio)) && Distinct(View(q, prio))
    ensures var r := Suspend(q, prio, t);
            && Below(r, |prio|) && (forall x :: x in r <==> x in q || x == t)
            && Sorted(View(r, prio)) && Distinct(View(r, prio))
  {
    var v, w := View(q, prio), Waiter(t, prio[t]);
    var k := Position(v, prio[t]);
    EnqueueKeepsSorted(v, w);
    assert w.tid !in Tids(v);
    EnqueueMembers(Prio, v, w);
    SuspendMembers(q, k, t);
    SuspendView(q, prio, t);
  }

  lemma SuspendView(q: seq<nat>, prio: seq<nat>, t: nat)
    requires t < |prio| && Below(q, |prio|)
    ensures Below(Suspend(q, prio, t), |prio|)
    ensures View(Suspend(q, prio, t), prio) == Enqueue(Prio, View(q, prio), Waiter(t, prio[t]))
  {
  }

  lemma {:induction false} RemovedMembers(q: seq<nat>, k: nat)
    requires k < |q| && forall i, j :: 0 <= i < j < |q| ==> q[i] != q[j]
    ensures forall x :: x in RemoveAt(q, k) <==> x in q && x != q[k]
  {
    var r := RemoveAt(q, k);
    forall x | x in q && x != q[k] ensures x in r {
      var i :| 0 <= i < |q| && q[i] == x;
      assert r[if i < k then i else i - 1] == x;
    }
    forall x | x in r ensures x in q && x != q[k] {
      var i :| 0 <= i < |r| && r[i] == x;
      assert q[if i < k then i else i + 1] == x;
    }
  }

  lemma {:induction false} RemoveKeeps(q: seq<nat>, prio: seq<nat>, k: nat)
    requires k < |q| && Below(q, |prio|)
    requires Sorted(View(q, prio)) && Distinct(View(q, prio))
    ensures var r := RemoveAt(q, k);
            && Below(r, |prio|) && (forall x :: x in r <==> x in q && x != q[k])
            && Sorted(View(r, prio)) && Distinct(View(r, prio))
  {
    var v, r := View(q, prio), RemoveAt(q, k);
    forall i, j | 0 <= i < j < |q| ensures q[i] != q[j] {
      assert v[i].tid != v[j].tid;
    }
    RemovedMembers(q, k);
    RemoveMembers(v, k);
    assert View(r, prio) == RemoveAt(v, k);
  }

  /** What one section on mutex `i` must establish: that mutex is in order again and only threads dealing with it are touched. */
  ghost predicate Settled(m: Mutex, i: nat, base: seq<nat>, before: seq<nat>, prio: seq<nat>, was: seq<Doing>, doing: seq<Doing>)
    requires |was| == |before|
  {
    && |prio| == |doing| == |base| == |before| && WellFormed(m, |prio|)
    && Consistent(m, i, doing) && Urgent(m, base, prio) && Undisturbed(base, prio, doing)
    && OnlyAt(i, before, prio, was, doing)
  }

  /** Only threads that deal with mutex `i`, if with any, change. */
  ghost predicate OnlyAt(i: nat, before: seq<nat>, prio: seq<nat>, was: seq<Doing>, doing: seq<Doing>)
    requires |was| == |before| == |prio| == |doing|
  {
    forall t :: 0 <= t < |doing| && (doing[t] != was[t] || prio[t] != before[t]) ==>
                  (was[t] == Free || was[t].i == i) && (doing[t] == Free || doing[t].i == i)
  }

  lemma {:induction false} OneMutexChanges(s: System, base: seq<nat>, i: nat, m: Mutex, prio: seq<nat>, doing: seq<Doing>)
    requires Inv(s, base) && i < |s.mutexes| && Settled(m, i, base, s.prio, prio, s.doing, doing)
    ensures Inv(System(s.mutexes[i := m], prio, doing), base)
  {
    forall j | 0 <= j < |s.mutexes| && j != i ensures Consistent(s.mutexes[j], j, doing) && Urgent(s.mutexes[j], base, prio) {
      OthersKept(s.mutexes[j], j, base, s.prio, s.doing, prio, doing);
    }
  }

  lemma {:induction false} TakeKeeps(s: System, base: seq<nat>, i: nat, t: nat, time: int)
    requires Inv(s, base) && Enabled(s, Takes(i, t, time))
    ensures Inv(Step(s, Takes(i, t, time)), base) && Take(s.mutexes[i], s.prio, t, time).2 != TakeOverflow
  {
    var m := s.mutexes[i];
    var (m', prio', r) := Take(m, s.prio, t, time);
    assert Consistent(m, i, s.doing) && Urgent(m, base, s.prio);
    if r == Blocked {
      BlockSettles(m, i, base, s.prio, s.doing, t);
    }
    OneMutexChanges(s, base, i, m', prio', DoesTake(s.doing, i, t, r));
  }

  /** Blocking behind a less urgent owner lends it the newcomer's priority. */
  lemma {:induction false} BlockSettles(m: Mutex, i: nat, base: seq<nat>, prio: seq<nat>, doing: seq<Doing>, t: nat)
    requires |base| == |prio| == |doing| && WellFormed(m, |prio|)
    requires Consistent(m, i, doing) && Urgent(m, base, prio) && Undisturbed(base, prio, doing)
    requires t < |doing| && doing[t] == Free && m.owner.Some?
    ensures var (m', prio', r) := Take(m, prio, t, -1);
            r == Blocked && Settled(m', i, base, prio, prio', doing, doing[t := Waits(i)])
  {
    BlockIsUrgent(m, base, prio, t);
    var (m', prio', _) := Take(m, prio, t, -1);
    BlockIsConsistent(m, m', i, doing, t);
    BlockDisturbsOwner(m.owner.value, i, base, prio, prio', doing, t);
  }

  lemma BlockDisturbsOwner(o: nat, i: nat, base: seq<nat>, prio: seq<nat>, prio': seq<nat>, doing: seq<Doing>, t: nat)
    requires |base| == |prio| == |doing| == |prio'| && Undisturbed(base, prio, doing)
    requires o < |doing| && doing[o].Holds? && doing[o].i == i && t < |doing| && doing[t] == Free
    requires forall x :: 0 <= x < |prio| && prio'[x] != prio[x] ==> x == o
    ensures Undisturbed(base, prio', doing[t := Waits(i)])
    ensures OnlyAt(i, prio, prio', doing, doing[t := Waits(i)])
  {
  }

  lemma {:induction false} BlockIsUrgent(m: Mutex, base: seq<nat>, prio: seq<nat>, t: nat)
    requires |base| == |prio| && WellFormed(m, |prio|) && Urgent(m, base, prio)
    requires t < |prio| && m.owner.Some? && m.owner != Some(t) && m.value == 0 && t !in m.waiters && m.owner.value !in m.waiters
    requires prio[t] == base[t]
    ensures var (m', prio', r) := Take(m, prio, t, -1);
            && r == Blocked && WellFormed(m', |prio|) && |prio'| == |prio| && Urgent(m', base, prio')
            && m' == m.(waiters := m'.waiters) && (forall x :: x in m'.waiters <==> x in m.waiters || x == t)
            && (forall x :: 0 <= x < |prio| && prio'[x] != prio[x] ==> x == m.owner.value)
  {
    var o := m.owner.value;
    var boosted := if prio[t] < prio[o] then prio[o := prio[t]] else prio;
    SameView(m.waiters, prio, boosted);
    SuspendKeeps(m.waiters, boosted, t);
  }

  lemma BlockIsConsistent(m: Mutex, m': Mutex, i: nat, doing: seq<Doing>, t: nat)
    requires Consistent(m, i, doing) && t < |doing| && doing[t] == Free && m.owner.Some?
    requires m' == m.(waiters := m'.waiters) && (forall x :: x in m'.waiters <==> x in m.waiters || x == t)
    ensures Consistent(m', i, doing[t := Waits(i)])
  {
  }

  lemma {:induction false} ReleaseKeeps(s: System, base: seq<nat>, i: nat, t: nat)
    requires Inv(s, base) && Enabled(s, Releases(i, t))
    ensures Inv(Step(s, Releases(i, t)), base) && Release(s.mutexes[i], s.prio, t).2 != ReleaseOverflow
  {
    var m := s.mutexes[i];
    assert Consistent(m, i, s.doing) && Urgent(m, base, s.prio);
    ReleaseSettles(m, i, base, s.prio, s.doing, t);
    var (m', prio', r) := Release(m, s.prio, t);
    OneMutexChanges(s, base, i, m', prio', DoesRelease(s.doing, i, t, r));
  }

  lemma {:induction false} ReleaseSettles(m: Mutex, i: nat, base: seq<nat>, prio: seq<nat>, doing: seq<Doing>, t: nat)
    requires |base| == |prio| == |doing| && WellFormed(m, |prio|) && t < |doing| && !doing[t].Waits?
    requires Consistent(m, i, doing) && Urgent(m, base, prio) && Undisturbed(base, prio, doing)
    ensures var (m', prio', r) := Release(m, prio, t);
            r != ReleaseOverflow && Settled(m', i, base, prio, prio', doing, DoesRelease(doing, i, t, r))
  {
    if m.owner == Some(t) && m.hold == 1 {
      if m.waiters != [] {
        HandOffSettles(m, i, base, prio, doing, t);
      } else {
        FreeSettles(m, i, base, prio, doing, t);
      }
    } else if m.owner == Some(t) {
      HeldSettles(m, i, base, prio, doing, t);
    }
  }

  lemma {:induction false} HeldSettles(m: Mutex, i: nat, base: seq<nat>, prio: seq<nat>, doing: seq<Doing>, t: nat)
    requires |base| == |prio| == |doing| && WellFormed(m, |prio|) && t < |doing|
    requires Consistent(m, i, doing) && Urgent(m, base, prio) && Undisturbed(base, prio, doing)
    requires m.owner == Some(t) && m.hold != 1
    ensures var (m', prio', r) := Release(m, prio, t);
            r == StillHeld && Settled(m', i, base, prio, prio', doing, doing[t := Holds(i, m.hold - 1)])
  {
    LessHold(m.hold);
    assert Consistent(m.(hold := m.hold - 1), i, doing[t := Holds(i, m.hold - 1)]);
  }

  lemma LessHold(hold: nat)
    requires 1 <= hold <= HOLD_MAX
    ensures (hold + 0xff) % 0x100 == hold - 1
  {
  }

  lemma {:induction false} FreeSettles(m: Mutex, i: nat, base: seq<nat>, prio: seq<nat>, doing: seq<Doing>, t: nat)
    requires |base| == |prio| == |doing| && WellFormed(m, |prio|)
    requires Consistent(m, i, doing) && Urgent(m, base, prio) && Undisturbed(base, prio, doing)
    requires t < |doing| && m.owner == Some(t) && m.hold == 1 && m.waiters == []
    ensures var (m', prio', r) := Release(m, prio, t);
            r == Released && Settled(m', i, base, prio, prio', doing, doing[t := Free])
  {
    assert Consistent(INIT, i, doing[t := Free]);
  }

  /** The head of the queue becomes the owner, and is at least as urgent as those behind it. */
  lemma {:induction false} HandOffSettles(m: Mutex, i: nat, base: seq<nat>, prio: seq<nat>, doing: seq<Doing>, t: nat)
    requires |base| == |prio| == |doing| && WellFormed(m, |prio|)
    requires Consistent(m, i, doing) && Urgent(m, base, prio) && Undisturbed(base, prio, doing)
    requires t < |doing| && m.owner == Some(t) && m.hold == 1 && m.waiters != []
    ensures var (m', prio', r) := Release(m, prio, t); var w := m.waiters[0];
            r == HandedTo(w) && w != t && Settled(m', i, base, prio, prio', doing, doing[t := Free][w := Holds(i, 1)])
  {
    HandOffIsUrgent(m, base, prio, t);
    HandOffIsConsistent(m, i, base, doing, t);
  }

  lemma {:induction false} HandOffIsUrgent(m: Mutex, base: seq<nat>, prio: seq<nat>, t: nat)
    requires |base| == |prio| && WellFormed(m, |prio|) && Urgent(m, base, prio)
    requires t < |prio| && m.owner == Some(t) && m.hold == 1 && m.waiters != [] && t !in m.waiters
    requires forall x :: x in m.waiters ==> prio[x] == base[x]
    ensures var w := m.waiters[0]; var m' := m.(owner := Some(w), original := base[w], waiters := m.waiters[1..]);
            && Release(m, prio, t) == (m', prio[t := base[t]], HandedTo(w))
            && WellFormed(m', |prio|) && Urgent(m', base, prio[t := base[t]])
            && (forall x :: x in m'.waiters <==> x in m.waiters && x != w)
  {
    var w, restored := m.waiters[0], prio[t := base[t]];
    assert w in m.waiters;
    SameView(m.waiters, prio, restored);
    RemoveKeeps(m.waiters, restored, 0);
    assert RemoveAt(m.waiters, 0) == m.waiters[1..];
    HeadIsUrgent(m.waiters, restored);
  }

  lemma {:induction false} HeadIsUrgent(q: seq<nat>, prio: seq<nat>)
    requires q != [] && Below(q, |prio|) && Sorted(View(q, prio))
    ensures forall x :: x in q ==> prio[q[0]] <= prio[x]
  {
    var v := View(q, prio);
    forall x | x in q ensures prio[q[0]] <= prio[x] {
      var j :| 0 <= j < |q| && q[j] == x;
      assert v[0].prio <= v[j].prio;
    }
  }

  lemma HandOffIsConsistent(m: Mutex, i: nat, base: seq<nat>, doing: seq<Doing>, t: nat)
    requires Consistent(m, i, doing) && |base| == |doing| && t < |doing| && m.owner == Some(t) && m.hold == 1 && m.waiters != []
    requires forall x :: x in m.waiters[1..] <==> x in m.waiters && x != m.waiters[0]
    ensures var w := m.waiters[0];
            && w < |base| && w != t
            && Consistent(m.(owner := Some(w), original := base[w], waiters := m.waiters[1..]), i, doing[t := Free][w := Holds(i, 1)])
  {
    assert m.waiters[0] in m.waiters;
  }

  lemma {:induction false} ExpireKeeps(s: System, base: seq<nat>, t: nat)
    requires Inv(s, base) && Enabled(s, Expires(t))
    ensures Inv(Step(s, Expires(t)), base)
  {
    var i := s.doing[t].i;
    var m := s.mutexes[i];
    assert Consistent(m, i, s.doing) && Urgent(m, base, s.prio);
    ExpireSettles(m, i, base, s.prio, s.doing, t);
    OneMutexChanges(s, base, i, Expired(m, s.prio, t), s.prio, s.doing[t := Free]);
  }

  lemma {:induction false} ExpireSettles(m: Mutex, i: nat, base: seq<nat>, prio: seq<nat>, doing: seq<Doing>, t: nat)
    requires |base| == |prio| == |doing| && WellFormed(m, |prio|) && t < |doing| && doing[t] == Waits(i)
    requires Consistent(m, i, doing) && Urgent(m, base, prio) && Undisturbed(base, prio, doing)
    ensures WellFormed(Expired(m, prio, t), |prio|)
    ensures Settled(Expired(m, prio, t), i, base, prio, prio, doing, doing[t := Free])
  {
    var v := View(m.waiters, prio);
    assert t in m.waiters;
    var j :| 0 <= j < |m.waiters| && m.waiters[j] == t;
    assert v[j].tid == t;
    RemoveKeeps(m.waiters, prio, Where(v, t));
  }

  /** `n` unused mutexes, threads with the priorities `base`. */
  function Start(n: nat, base: seq<nat>): System {
    System(seq(n, _ => INIT), base, seq(|base|, _ => Free))
  }

  ghost function Run(s: System, es: seq<Event>): System
    decreases |es|
  {
    if es == [] then s else Step(Run(s, es[..|es| - 1]), es[|es| - 1])
  }

  lemma {:induction false} RunKeepsInv(n: nat, base: seq<nat>, es: seq<Event>)
    ensures Inv(Run(Start(n, base), es), base)
  {
    if es != [] {
      RunKeepsInv(n, base, es[..|es| - 1]);
      var s := Run(Start(n, base), es[..|es| - 1]);
      if Enabled(s, es[|es| - 1]) {
        match es[|es| - 1] {
          case Takes(i, t, time) => TakeKeeps(s, base, i, t, time);
          case Releases(i, t) => ReleaseKeeps(s, base, i, t);
          case Expires(t) => ExpireKeeps(s, base, t);
        }
      }
    }
  }

  /** The exits for a counter overflow are never reached. */
  lemma NoOverflow(n: nat, base: seq<nat>, es: seq<Event>, i: nat, t: nat, time: int)
    ensures var s := Run(Start(n, base), es);
            && (Enabled(s, Takes(i, t, time)) ==> Take(s.mutexes[i], s.prio, t, time).2 != TakeOverflow)
            && (Enabled(s, Releases(i, t)) ==> Release(s.mutexes[i], s.prio, t).2 != ReleaseOverflow)
  {
    RunKeepsInv(n, base, es);
    var s := Run(Start(n, base), es);
    if Enabled(s, Takes(i, t, time)) {
      TakeKeeps(s, base, i, t, time);
    }
    if Enabled(s, Releases(i, t)) {
      ReleaseKeeps(s, base, i, t);
    }
  }

  /** A thread that waits, in any reachable state, waits for a thread that itself waits for nothing
      and is at least as urgent. */
  lemma OwnersAreUrgent(n: nat, base: seq<nat>, es: seq<Event>, t: nat)
    ensures var s := Run(Start(n, base), es);
            t < |base| == |s.doing| == |s.prio| && s.doing[t].Waits? && s.doing[t].i < n ==>
              |s.mutexes| == n &&
              var m := s.mutexes[s.doing[t].i];
              && t in m.waiters && m.owner.Some? && m.owner.value < |s.doing|
              && s.doing[m.owner.value].Holds? && s.prio[m.owner.value] <= s.prio[t] == base[t]
  {
    RunKeepsInv(n, base, es);
    SameCount(n, base, es);
    var s := Run(Start(n, base), es);
    if t < |base| && s.doing[t].Waits? && s.doing[t].i < n {
      assert Consistent(s.mutexes[s.doing[t].i], s.doing[t].i, s.doing);
    }
  }

  lemma {:induction false} SameCount(n: nat, base: seq<nat>, es: seq<Event>)
    ensures |Run(Start(n, base), es).mutexes| == n
  {
    if es != [] {
      SameCount(n, base, es[..|es| - 1]);
    }
  }

  /** The last release of a mutex puts the thread back to its own priority. */
  lemma FullReleaseRestores(n: nat, base: seq<nat>, es: seq<Event>, i: nat, t: nat)
    ensures var s := Run(Start(n, base), es); var after := Step(s, Releases(i, t));
            Enabled(s, Releases(i, t)) && |base| == |after.prio| == |after.doing| && s.doing[t] == Holds(i, 1) ==>
              after.doing[t] == Free && after.prio[t] == base[t] && after.mutexes[i].owner != Some(t)
  {
    RunKeepsInv(n, base, es);
    var s := Run(Start(n, base), es);
    if Enabled(s, Releases(i, t)) && s.doing[t] == Holds(i, 1) {
      var m := s.mutexes[i];
      assert Consistent(m, i, s.doing) && Urgent(m, base, s.prio);
      ReleaseSettles(m, i, base, s.prio, s.doing, t);
      LessHold(m.hold);
      if m.waiters != [] {
        HandOffSettles(m, i, base, s.prio, s.doing, t);
      }
    }
  }

  /** With nested mutexes that is false: thread 0 takes mutex a, thread 1 blocks on a, thread 0 takes
      mutex b and then releases first a and then b. It holds nothing any more but keeps thread 1's priority. */
  lemma NestingLeavesBoost()
    ensures var a := Take(INIT, [9, 1], 0, -1);
            var a' := Take(a.0, a.1, 1, -1);
            var b := Take(INIT, a'.1, 0, -1);
            var a'' := Release(a'.0, b.1, 0);
            var b' := Release(b.0, a''.1, 0);
            && a.2 == b.2 == Taken && a'.2 == Blocked && a''.2 == HandedTo(1) && b'.2 == Released
            && a''.1 == [9, 1] && b'.1 == [1, 1]
  {
    var a := Take(INIT, [9, 1], 0, -1);
    var a' := Take(a.0, a.1, 1, -1);
    assert a'.1 == [1, 1] && a'.0 == Mutex(0, 1, Some(0), 9, [1]);
    var b := Take(INIT, a'.1, 0, -1);
    var a'' := Release(a'.0, b.1, 0);
    assert a''.0 == Mutex(0, 1, Some(1), 1, []) && a''.1 == [9, 1];
    var b' := Release(b.0, a''.1, 0);
    assert b'.1 == [1, 1];
  }
}

/** Threads that hold several mutexes at once, in any order. */
module MutexNesting {
  import opened WaitQueue
  import opened RtDef
  import opened MutexSpec
  import opened MutexInvariant

  /** `held[t]` lists the mutexes of thread t in the order it got them, `acquired[i]` is the priority
      the owner of mutex i had when it became the owner. */
  datatype World = World(mutexes: seq<Mutex>, prio: seq<nat>, held: seq<seq<nat>>, acquired: seq<nat>)

  /** Besides taking, releasing and timing out, a priority may be changed by somebody else. */
  datatype Deed = Locks(i: nat, t: nat, time: int) | Unlocks(i: nat, t: nat) | TimesOut(i: nat, t: nat) | Changes(t: nat, priority: nat)

  ghost predicate Waiting(w: World, t: nat) {
    exists i :: 0 <= i < |w.mutexes| && t in w.mutexes[i].waiters
  }

  /** A waiting thread does nothing. */
  ghost predicate Possible(w: World, e: Deed) {
    && |w.held| == |w.prio| && |w.acquired| == |w.mutexes| && e.t < |w.prio|
    && (!e.Changes? ==> e.i < |w.mutexes| && WellFormed(w.mutexes[e.i], |w.prio|))
    && (e.Locks? || e.Unlocks? ==> !Waiting(w, e.t))
  }

  function Without(q: seq<nat>, i: nat): seq<nat> {
    if q == [] then [] else if q[0] == i then q[1..] else [q[0]] + Without(q[1..], i)
  }

  /** Thread `t` becomes the owner of mutex `i`. */
  ghost function Acquires(w: World, i: nat, t: nat): World
    requires t < |w.held| == |w.prio| && i < |w.acquired|
  {
    w.(held := w.held[t := w.held[t] + [i]], acquired := w.acquired[i := w.prio[t]])
  }

  ghost function Does(w: World, e: Deed): World {
    if !Possible(w, e) then w else
    match e
    case Locks(i, t, time) =>
      var (m, prio, r) := Take(w.mutexes[i], w.prio, t, time);
      var x := w.(mutexes := w.mutexes[i := m], prio := prio);
      if r == Taken && w.mutexes[i].owner != Some(t) then Acquires(x, i, t) else x
    case Unlocks(i, t) =>
      var (m, prio, r) := Release(w.mutexes[i], w.prio, t);
      var x := w.(mutexes := w.mutexes[i := m], prio := prio);
      var y := x.(held := x.held[t := Without(x.held[t], i)]);
      (match r
       case HandedTo(u) => Acquires(y, i, u)
       case Released => y
       case _ => x)
    case TimesOut(i, t) => w.(mutexes := w.mutexes[i := Expired(w.mutexes[i], w.prio, t)])
    case Changes(t, priority) => w.(prio := w.prio[t := priority])
  }

  ghost function DoAll(w: World, es: seq<Deed>): World
    decreases |es|
  {
    if es == [] then w else Does(DoAll(w, es[..|es| - 1]), es[|es| - 1])
  }

  function Begin(n: nat, base: seq<nat>): World {
    World(seq(n, _ => INIT), base, seq(|base|, _ => []), seq(n, _ => 0))
  }

  // ----- what holds however mutexes are nested -----

  ghost predicate Unique(q: seq<nat>) {
    forall i, j :: 0 <= i < j < |q| ==> q[i] != q[j]
  }

  /** A mutex is free, or has an owner that does not wait for it and whose saved priority is the one it acquired it with. */
  ghost predicate Coherent(m: Mutex, acquired: nat, n: nat) {
    && Below(m.waiters, n) && Unique(m.waiters)
    && match m.owner
       case None => m == INIT
       case Some(o) => m.value == 0 && 1 <= m.hold <= HOLD_MAX && o < n && o !in m.waiters && m.original == acquired
  }

  ghost predicate Owns(w: World, t: nat, i: nat) {
    i < |w.mutexes| && w.mutexes[i].owner == Some(t)
  }

  ghost predicate AllCoherent(w: World) {
    && |w.held| == |w.prio| && |w.acquired| == |w.mutexes|
    && (forall i :: 0 <= i < |w.mutexes| ==> Coherent(w.mutexes[i], w.acquired[i], |w.prio|))
    && (forall t :: 0 <= t < |w.held| ==> HeldBy(w, t))
  }

  ghost predicate HeldBy(w: World, t: nat)
    requires t < |w.held|
  {
    Unique(w.held[t]) && forall i :: i in w.held[t] <==> Owns(w, t, i)
  }

  lemma {:induction false} WithoutIs(q: seq<nat>, i: nat)
    requires Unique(q)
    ensures Unique(Without(q, i)) && forall x :: x in Without(q, i) <==> x in q && x != i
    ensures q != [] && q[0] != i ==> Without(q, i) != [] && Without(q, i)[0] == q[0]
  {
    if q != [] {
      assert q == [q[0]] + q[1..];
      WithoutIs(q[1..], i);
      var c, d := Without(q, i), Without(q[1..], i);
      if q[0] != i {
        forall j, k | 0 <= j < k < |c| ensures c[j] != c[k] {
          assert d[k - 1] in q[1..];
        }
      }
    }
  }

  lemma {:induction false} InsertUnique(q: seq<nat>, k: nat, t: nat)
    requires k <= |q| && Unique(q) && t !in q
    ensures Unique(InsertAt(q, k, t)) && forall x :: x in InsertAt(q, k, t) <==> x in q || x == t
  {
    SuspendMembers(q, k, t);
  }

  lemma {:induction false} TakeCoheres(m: Mutex, acquired: nat, prio: seq<nat>, t: nat, time: int)
    requires Coherent(m, acquired, |prio|) && t < |prio| && t !in m.waiters
    ensures var (m', prio', r) := Take(m, prio, t, time);
            && r != TakeOverflow && |prio'| == |prio|
            && (r == Taken && m.owner != Some(t) ==> m.owner == None && prio' == prio)
            && m'.owner == (if r == Taken then Some(t) else m.owner)
            && Coherent(m', if m'.owner == m.owner then acquired else prio[t], |prio|)
            && forall x :: 0 <= x < |prio| && prio'[x] != prio[x] ==> m.owner == Some(x)
  {
    if m.owner != Some(t) && m.value == 0 && time != 0 {
      var o := m.owner.value;
      var boosted := if prio[t] < prio[o] then prio[o := prio[t]] else prio;
      InsertUnique(m.waiters, Position(View(m.waiters, boosted), boosted[t]), t);
    }
  }

  lemma {:induction false} ReleaseCoheres(m: Mutex, acquired: nat, prio: seq<nat>, t: nat)
    requires Coherent(m, acquired, |prio|) && t < |prio| && t !in m.waiters
    ensures var (m', prio', r) := Release(m, prio, t);
            && r != ReleaseOverflow && |prio'| == |prio|
            && (r.HandedTo? || r.Released? ==> m.owner == Some(t) && m.hold == 1 && prio' == prio[t := acquired])
            && (!r.HandedTo? && !r.Released? ==> prio' == prio && m'.owner == m.owner)
            && (r.HandedTo? ==> r.t < |prio| && r.t != t && m'.owner == Some(r.t) && Coherent(m', prio[r.t], |prio|))
            && (!r.HandedTo? ==> Coherent(m', acquired, |prio|))
            && (r.Released? ==> m'.owner == None)
  {
    if m.owner == Some(t) {
      LessHold(m.hold);
      if m.waiters != [] {
        assert m.waiters[0] in m.waiters;
        assert forall x :: x in m.waiters[1..] ==> x in m.waiters;
        assert m.waiters[0] !in m.waiters[1..];
      }
    }
  }

  lemma {:induction false} ExpireCoheres(m: Mutex, acquired: nat, prio: seq<nat>, t: nat)
    requires Coherent(m, acquired, |prio|)
    ensures Coherent(Expired(m, prio, t), acquired, |prio|) && Expired(m, prio, t).owner == m.owner
  {
    var k := Where(View(m.waiters, prio), t);
    if k < |m.waiters| {
      RemovedMembers(m.waiters, k);
    }
  }

  // who holds what after mutex `i` became `m`

  ghost predicate AllHeld(w: World) {
    |w.held| == |w.prio| && |w.acquired| == |w.mutexes| && forall t :: 0 <= t < |w.held| ==> HeldBy(w, t)
  }

  lemma SameOwner(w: World, i: nat, m: Mutex, prio: seq<nat>)
    requires AllHeld(w) && i < |w.mutexes| && m.owner == w.mutexes[i].owner && |prio| == |w.prio|
    ensures AllHeld(w.(mutexes := w.mutexes[i := m], prio := prio))
  {
    var x := w.(mutexes := w.mutexes[i := m], prio := prio);
    forall t | 0 <= t < |w.held| ensures HeldBy(x, t) {
      assert HeldBy(w, t);
      forall j: nat ensures Owns(x, t, j) <==> Owns(w, t, j) {}
    }
  }

  lemma NewOwner(w: World, i: nat, m: Mutex, prio: seq<nat>, t: nat)
    requires AllHeld(w) && i < |w.mutexes| && w.mutexes[i].owner == None && m.owner == Some(t) && t < |prio| == |w.prio|
    ensures AllHeld(Acquires(w.(mutexes := w.mutexes[i := m], prio := prio), i, t))
  {
    var x := Acquires(w.(mutexes := w.mutexes[i := m], prio := prio), i, t);
    forall u | 0 <= u < |w.held| ensures HeldBy(x, u) {
      assert HeldBy(w, u);
      forall j: nat ensures Owns(x, u, j) <==> Owns(w, u, j) || (u == t && j == i) {}
      assert !Owns(w, u, i);
    }
  }

  lemma NoOwner(w: World, i: nat, m: Mutex, prio: seq<nat>, t: nat)
    requires AllHeld(w) && i < |w.mutexes| && w.mutexes[i].owner == Some(t) && m.owner == None && t < |prio| == |w.prio|
    ensures AllHeld(w.(mutexes := w.mutexes[i := m], prio := prio, held := w.held[t := Without(w.held[t], i)]))
  {
    var x := w.(mutexes := w.mutexes[i := m], prio := prio, held := w.held[t := Without(w.held[t], i)]);
    forall u | 0 <= u < |w.held| ensures HeldBy(x, u) {
      assert HeldBy(w, u);
      forall j: nat ensures Owns(x, u, j) <==> Owns(w, u, j) && j != i {}
      if u == t {
        WithoutIs(w.held[t], i);
      } else {
        assert !Owns(w, u, i);
      }
    }
  }

  lemma {:induction false} DoesCoheres(w: World, e: Deed)
    requires AllCoherent(w)
    ensures AllCoherent(Does(w, e))
  {
    if Possible(w, e) && !e.Changes? {
      var i, t := e.i, e.t;
      var m := w.mutexes[i];
      assert Coherent(m, w.acquired[i], |w.prio|);
      match e {
        case Locks(_, _, time) =>
          TakeCoheres(m, w.acquired[i], w.prio, t, time);
          var (m', prio', r) := Take(m, w.prio, t, time);
          if r == Taken && m.owner != Some(t) { NewOwner(w, i, m', prio', t); } else { SameOwner(w, i, m', prio'); }
        case Unlocks(_, _) => ReleaseAllCoherent(w, i, t);
        case TimesOut(_, _) =>
          ExpireCoheres(m, w.acquired[i], w.prio, t);
          SameOwner(w, i, Expired(m, w.prio, t), w.prio);
      }
    } else if Possible(w, e) {
      ChangeCoheres(w, e.t, e.priority);
    }
  }

  lemma ChangeCoheres(w: World, t: nat, priority: nat)
    requires AllCoherent(w) && t < |w.prio|
    ensures AllCoherent(w.(prio := w.prio[t := priority]))
  {
    var x := w.(prio := w.prio[t := priority]);
    forall u | 0 <= u < |w.held| ensures HeldBy(x, u) {
      assert HeldBy(w, u);
      forall j: nat ensures Owns(x, u, j) <==> Owns(w, u, j) {}
    }
  }

  lemma {:induction false} ReleaseAllCoherent(w: World, i: nat, t: nat)
    requires AllCoherent(w) && Possible(w, Unlocks(i, t))
    ensures AllCoherent(Does(w, Unlocks(i, t)))
  {
    var m := w.mutexes[i];
    assert Coherent(m, w.acquired[i], |w.prio|);
    ReleaseCoheres(m, w.acquired[i], w.prio, t);
    var (m', prio', r) := Release(m, w.prio, t);
    match r {
      case HandedTo(u) =>
        NoOwner(w, i, m.(owner := None), prio', t);
        var y := w.(mutexes := w.mutexes[i := m.(owner := None)], prio := prio', held := w.held[t := Without(w.held[t], i)]);
        NewOwner(y, i, m', prio', u);
        assert y.mutexes[i := m'] == w.mutexes[i := m'];
      case Released => NoOwner(w, i, m', prio', t);
      case _ => SameOwner(w, i, m', prio');
    }
  }

  lemma {:induction false} DoAllCoheres(n: nat, base: seq<nat>, es: seq<Deed>)
    ensures AllCoherent(DoAll(Begin(n, base), es))
    ensures |DoAll(Begin(n, base), es).prio| == |base| && |DoAll(Begin(n, base), es).mutexes| == n
  {
    if es != [] {
      DoAllCoheres(n, base, es[..|es| - 1]);
      DoesCoheres(DoAll(Begin(n, base), es[..|es| - 1]), es[|es| - 1]);
    }
  }

  /** Also with nested mutexes the exits for a counter overflow are never reached. */
  lemma NeverOverflows(n: nat, base: seq<nat>, es: seq<Deed>, i: nat, t: nat, time: int)
    ensures var w := DoAll(Begin(n, base), es);
            && (Possible(w, Locks(i, t, time)) ==> Take(w.mutexes[i], w.prio, t, time).2 != TakeOverflow)
            && (Possible(w, Unlocks(i, t)) ==> Release(w.mutexes[i], w.prio, t).2 != ReleaseOverflow)
  {
    DoAllCoheres(n, base, es);
    var w := DoAll(Begin(n, base), es);
    if Possible(w, Unlocks(i, t)) {
      TakeCoheres(w.mutexes[i], w.acquired[i], w.prio, t, time);
      ReleaseCoheres(w.mutexes[i], w.acquired[i], w.prio, t);
    }
  }

  /** Whatever else a thread holds, and however it got the mutex: the release that gives it away puts the thread
      back to exactly the priority at which it acquired it. That is its own if and only if it held no borrowed one then. */
  lemma ReleaseRestoresAcquired(n: nat, base: seq<nat>, es: seq<Deed>, i: nat, t: nat)
    ensures var w := DoAll(Begin(n, base), es); var after := Does(w, Unlocks(i, t));
            Possible(w, Unlocks(i, t)) && |base| == |after.prio| && w.mutexes[i].owner == Some(t) && after.mutexes[i].owner != Some(t) ==>
              && after.prio[t] == w.acquired[i]
              && (after.prio[t] == base[t] <==> w.acquired[i] == base[t])
  {
    DoAllCoheres(n, base, es);
    var w := DoAll(Begin(n, base), es);
    if Possible(w, Unlocks(i, t)) {
      ReleaseCoheres(w.mutexes[i], w.acquired[i], w.prio, t);
    }
  }

  /** What a take answers and does, over every run and for every timeout: a free mutex is taken, at the priority the
      thread has; its owner takes it up to 255 times, then it is full; of a mutex that another thread owns a timeout
      of 0 gives up and changes nothing, any other one waits and lends the owner its priority if that is more urgent. */
  lemma TakeAnswers(n: nat, base: seq<nat>, es: seq<Deed>, i: nat, t: nat, time: int)
    requires Possible(DoAll(Begin(n, base), es), Locks(i, t, time))
    ensures var w := DoAll(Begin(n, base), es); var m, prio := w.mutexes[i], w.prio; var (m', prio', r) := Take(m, prio, t, time);
            match m.owner
            case None => r == Taken && prio' == prio && m' == Mutex(0, 1, Some(t), prio[t], [])
            case Some(o) =>
              if o == t then
                prio' == prio && (r == Taken <==> m.hold < 255) && (r == Full <==> m.hold == 255) &&
                m' == m.(hold := Min(m.hold + 1, 255))
              else
                && (r == TimedOut <==> time == 0) && (r == Blocked <==> time != 0)
                && (time == 0 ==> m' == m && prio' == prio)
                && (time != 0 ==> Joins(m, m', t) && o < |prio| && prio' == prio[o := Min(prio[o], prio[t])])
  {
    DoAllCoheres(n, base, es);
    var w := DoAll(Begin(n, base), es);
    var m := w.mutexes[i];
    assert Coherent(m, w.acquired[i], |w.prio|) && t !in m.waiters;
    if m.owner.Some? && m.owner != Some(t) && time != 0 {
      var o := m.owner.value;
      var boosted := if w.prio[t] < w.prio[o] then w.prio[o := w.prio[t]] else w.prio;
      SuspendMembers(m.waiters, Position(View(m.waiters, boosted), boosted[t]), t);
    }
  }

  /** Thread `t` joined the waiters of the mutex. */
  ghost predicate Joins(m: Mutex, m': Mutex, t: nat) {
    && m' == m.(waiters := m'.waiters) && |m'.waiters| == |m.waiters| + 1
    && forall x :: x in m'.waiters <==> x in m.waiters || x == t
  }

  /** What a release answers and does, over every run: only the owner releases; one of several takes leaves the mutex
      held; the last one restores the priority and hands the mutex to the first waiter at its present priority,
      or, without waiters, leaves it as it was initialised. */
  lemma ReleaseAnswers(n: nat, base: seq<nat>, es: seq<Deed>, i: nat, t: nat)
    requires Possible(DoAll(Begin(n, base), es), Unlocks(i, t))
    ensures var w := DoAll(Begin(n, base), es); var m, prio := w.mutexes[i], w.prio; var (m', prio', r) := Release(m, prio, t);
            if m.owner != Some(t) then r == NotOwner && m' == m && prio' == prio
            else if m.hold > 1 then r == StillHeld && m' == m.(hold := m.hold - 1) && prio' == prio
            else
              && prio' == prio[t := w.acquired[i]]
              && (m.waiters == [] ==> r == Released && m' == Mutex(1, 0, None, 255, []))
              && (m.waiters != [] ==>
                    var u := m.waiters[0];
                    && u < |prio| && u != t && r == HandedTo(u)
                    && m' == Mutex(0, 1, Some(u), prio[u], m.waiters[1..]))
  {
    DoAllCoheres(n, base, es);
    var w := DoAll(Begin(n, base), es);
    var m := w.mutexes[i];
    assert Coherent(m, w.acquired[i], |w.prio|) && t !in m.waiters;
    if m.owner == Some(t) {
      LessHold(m.hold);
      assert m.waiters != [] ==> m.waiters[0] in m.waiters;
    }
  }

  // ----- when nesting is harmless -----

  /** A thread keeps the mutex it got first until it holds no other, and nobody changes priorities from outside. */
  ghost predicate Disciplined(w: World, e: Deed) {
    match e
    case Unlocks(i, t) =>
      i < |w.mutexes| && t < |w.held| && w.mutexes[i].owner == Some(t) && w.mutexes[i].hold == 1 && w.held[t] != [] && w.held[t][0] == i ==>
        |w.held[t]| == 1
    case Changes(_, _) => false
    case _ => true
  }

  /** Threads that hold nothing run at their own priority, and have acquired their first mutex at it. */
  ghost predicate OwnPriority(w: World, base: seq<nat>, t: nat)
    requires t < |w.prio| == |w.held| == |base|
  {
    if w.held[t] == [] then w.prio[t] == base[t]
    else w.held[t][0] < |w.acquired| && w.acquired[w.held[t][0]] == base[t]
  }

  ghost predicate AllOwn(w: World, base: seq<nat>) {
    |w.prio| == |w.held| == |base| && forall t :: 0 <= t < |base| ==> OwnPriority(w, base, t)
  }

  lemma {:induction false} LockKeepsOwn(w: World, base: seq<nat>, i: nat, t: nat, time: int)
    requires AllCoherent(w) && AllOwn(w, base) && Possible(w, Locks(i, t, time))
    ensures AllOwn(Does(w, Locks(i, t, time)), base)
  {
    var m, x := w.mutexes[i], Does(w, Locks(i, t, time));
    assert Coherent(m, w.acquired[i], |w.prio|);
    TakeCoheres(m, w.acquired[i], w.prio, t, time);
    forall u | 0 <= u < |base| ensures OwnPriority(x, base, u) {
      assert OwnPriority(w, base, u) && HeldBy(w, u);
      assert Owns(w, u, i) <==> m.owner == Some(u);
    }
  }

  lemma {:induction false} UnlockKeepsOwn(w: World, base: seq<nat>, i: nat, t: nat)
    requires AllCoherent(w) && AllOwn(w, base) && Possible(w, Unlocks(i, t)) && Disciplined(w, Unlocks(i, t))
    ensures AllOwn(Does(w, Unlocks(i, t)), base)
  {
    var m, x := w.mutexes[i], Does(w, Unlocks(i, t));
    assert Coherent(m, w.acquired[i], |w.prio|) && HeldBy(w, t) && OwnPriority(w, base, t);
    ReleaseCoheres(m, w.acquired[i], w.prio, t);
    assert m.owner == Some(t) ==> i in w.held[t] && Owns(w, t, i);
    WithoutIs(w.held[t], i);
    forall u | 0 <= u < |base| ensures OwnPriority(x, base, u) {
      assert OwnPriority(w, base, u) && HeldBy(w, u);
      assert u != t && m.owner == Some(t) ==> !Owns(w, u, i);
    }
  }

  lemma {:induction false} DoesKeepsOwn(w: World, base: seq<nat>, e: Deed)
    requires AllCoherent(w) && AllOwn(w, base) && Disciplined(w, e)
    ensures AllOwn(Does(w, e), base)
  {
    if Possible(w, e) {
      match e {
        case Locks(i, t, time) => LockKeepsOwn(w, base, i, t, time);
        case Unlocks(i, t) => UnlockKeepsOwn(w, base, i, t);
        case TimesOut(i, t) =>
          forall u | 0 <= u < |base| ensures OwnPriority(Does(w, e), base, u) {
            assert OwnPriority(w, base, u);
          }
      }
    }
  }

  /** Over every run in which every thread gives up last the mutex it got first (releasing in reverse order is
      enough for that), a thread that holds nothing runs at its own priority. */
  lemma {:induction false} DisciplineKeepsOwn(n: nat, base: seq<nat>, es: seq<Deed>)
    requires forall k :: 0 <= k < |es| ==> Disciplined(DoAll(Begin(n, base), es[..k]), es[k])
    ensures AllOwn(DoAll(Begin(n, base), es), base)
  {
    if es != [] {
      var front := es[..|es| - 1];
      forall k | 0 <= k < |front| ensures Disciplined(DoAll(Begin(n, base), front[..k]), front[k]) {
        assert front[..k] == es[..k];
      }
      DisciplineKeepsOwn(n, base, front);
      DoAllCoheres(n, base, front);
      DoesKeepsOwn(DoAll(Begin(n, base), front), base, es[|es| - 1]);
    }
  }
}

module Mutex {
  import opened WaitQueue
  import opened RtDef
  import opened MutexSpec

  /** `threads` holds the current priority of every thread, the part of the thread table that mutexes use. */
  class Mutex {
    var value: nat
    var hold: nat
    var owner: Option<nat>
    var original_priority: nat
    var suspend_thread: seq<nat>
    const threads: array<nat>

    ghost function State(): MutexSpec.Mutex
      reads this
    {
      MutexSpec.Mutex(value, hold, owner, original_priority, suspend_thread)
    }

    ghost predicate Valid()
      reads this
    {
      WellFormed(State(), threads.Length)
    }

    /** rt_mutex_init. */
    constructor (threads: array<nat>)
      ensures Valid() && State() == INIT && this.threads == threads
    {
      value, hold, owner, original_priority, suspend_thread := 1, 0, None, NOBODY, [];
      this.threads := threads;
    }

    /** RT_THREAD_CTRL_CHANGE_PRIORITY. */
    method ChangePriority(t: nat, priority: nat)
      requires t < threads.Length
      modifies threads
      ensures threads[..] == old(threads[..])[t := priority]
    {
      threads[t] := priority;
    }

    /** _ipc_list_suspend with the priority flag: walk to the first thread that is less urgent. */
    method Suspend(t: nat)
      requires Valid() && t < threads.Length
      modifies this`suspend_thread
      ensures suspend_thread == MutexSpec.Suspend(old(suspend_thread), threads[..], t)
    {
      var n := 0;
      while n < |suspend_thread| && threads[suspend_thread[n]] <= threads[t]
        invariant n <= |suspend_thread|
        invariant forall i :: 0 <= i < n ==> threads[suspend_thread[i]] <= threads[t]
      {
        n := n + 1;
      }
      assert n == Position(View(suspend_thread, threads[..]), threads[t]);
      suspend_thread := InsertAt(suspend_thread, n, t);
    }

    /** rt_mutex_take. */
    method Take(t: nat, time: int) returns (r: TakeResult)
      requires Valid() && t < threads.Length
      modifies this, threads
      ensures Valid() && (State(), threads[..], r) == MutexSpec.Take(old(State()), old(threads[..]), t, time)
    {
      if owner == Some(t) {
        if hold < HOLD_MAX {
          hold := hold + 1;
        } else {
          return Full;
        }
      } else if value > 0 {
        value := value - 1;
        owner, original_priority := Some(t), threads[t];
        if hold < HOLD_MAX {
          hold := hold + 1;
        } else {
          return TakeOverflow;
        }
      } else {
        if time == 0 {
          return TimedOut;
        }
        if threads[t] < threads[owner.value] {
          ChangePriority(owner.value, threads[t]);
        }
        Suspend(t);
        return Blocked;
      }
      return Taken;
    }

    /** rt_mutex_release. */
    method Release(t: nat) returns (r: ReleaseResult)
      requires Valid() && t < threads.Length
      modifies this, threads
      ensures Valid() && (State(), threads[..], r) == MutexSpec.Release(old(State()), old(threads[..]), t)
    {
      if owner != Some(t) {
        return NotOwner;
      }
      hold := (hold + 0xff) % 0x100;
      if hold != 0 {
        return StillHeld;
      }
      if original_priority != threads[t] {
        ChangePriority(t, original_priority);
      }
      assert threads[..] == old(threads[..])[t := original_priority];
      if suspend_thread != [] {
        var thread := suspend_thread[0];
        owner, original_priority := Some(thread), threads[thread];
        if hold < HOLD_MAX {
          hold := hold + 1;
        } else {
          return ReleaseOverflow;
        }
        suspend_thread := suspend_thread[1..];
        return HandedTo(thread);
      }
      if value < VALUE_MAX {
        value := value + 1;
      } else {
        return ReleaseOverflow;
      }
      owner, original_priority := None, NOBODY;
      return Released;
    }
  }
}
