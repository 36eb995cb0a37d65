/** The event flags of ipc.c. One function is one section with interrupts disabled. */
module EventSpec {
  import opened WaitQueue
  import opened RtDef

  /** A 32-bit event set, as the set of its bits. */
  type Bit = b: nat | b < 32
  type Bits = set<Bit>

  /** The bits of an `option` argument. RT_EVENT_FLAG_AND wins over RT_EVENT_FLAG_OR. */
  datatype Flags = Flags(all: bool, any: bool, clear: bool)

  /** A suspended thread with its event_set and event_info. */
  datatype Request = Request(w: Waiter, want: Bits, flags: Flags)

  datatype Event = Event(bits: Bits, waiters: seq<Request>)

  datatype Received = Received(tid: nat, got: Bits)

  datatype RecvResult = Got(got: Bits) | TimedOut | Blocked | NothingAsked

  datatype SendResult = Sent(woken: seq<Received>) | NothingSent | Invalid

  predicate Satisfied(bits: Bits, want: Bits, flags: Flags) {
    if flags.all then want * bits == want else want * bits != {}
  }

  /** The path of rt_event_recv that does not wait: what remains of the set, and the bits received if the condition holds. */
  function Poll(bits: Bits, want: Bits, flags: Flags): (Bits, Option<Bits>) {
    if Satisfied(bits, want, flags) then (if flags.clear then bits - want else bits, Some(bits * want))
    else (bits, None)
  }

  function Queue(q: seq<Request>): (v: seq<Waiter>)
    ensures |v| == |q| && forall i :: 0 <= i < |q| ==> v[i] == q[i].w
  {
    seq(|q|, i requires 0 <= i < |q| => q[i].w)
  }

  function Suspend(flag: Flag, q: seq<Request>, r: Request): seq<Request> {
    match flag
    case Fifo => q + [r]
    case Prio => InsertAt(q, Position(Queue(q), r.w.prio), r)
  }

  /** rt_event_recv. */
  function Recv(e: Event, flag: Flag, r: Request, timeout: int): (Event, RecvResult) {
    if r.want == {} then (e, NothingAsked)
    else
      match Poll(e.bits, r.want, r.flags)
      case (bits, Some(got)) => (e.(bits := bits), Got(got))
      case (_, None) =>
        if timeout == 0 then (e, TimedOut) else (e.(waiters := Suspend(flag, e.waiters, r)), Blocked)
  }

  /** Every waiter polls, in list order: what remains of the set, who keeps waiting and what the others received. */
  function Deliver(bits: Bits, q: seq<Request>): (Bits, seq<Request>, seq<Received>) {
    if q == [] then (bits, [], [])
    else
      var (rest, r) := Poll(bits, q[0].want, q[0].flags);
      var (final, kept, woken) := Deliver(rest, q[1..]);
      match r
      case Some(got) => (final, kept, [Received(q[0].w.tid, got)] + woken)
      case None => (final, [q[0]] + kept, woken)
  }

  /** Every waiter asks for something, in one of the two ways. */
  predicate Asking(q: seq<Request>) {
    forall r :: r in q ==> r.want != {} && (r.flags.all || r.flags.any)
  }

  /** rt_event_send, when no waiter is malformed. */
  function Send(e: Event, more: Bits): (Event, SendResult) {
    if more == {} then (e, NothingSent)
    else
      var (bits, kept, woken) := Deliver(e.bits + more, e.waiters);
      (Event(bits, kept), Sent(woken))
  }

  // ----- runs -----

  datatype Action = Sends(more: Bits) | Recvs(r: Request, timeout: int) | Expires(tid: nat) | Resets

  function Step(e: Event, flag: Flag, a: Action): Event {
    match a
    case Sends(more) => Send(e, more).0
    case Recvs(r, timeout) =>
      // the source asserts that one of the two ways is chosen
      if r.flags.all || r.flags.any then Recv(e, flag, r, timeout).0 else e
    case Expires(tid) =>
      var k := Where(Queue(e.waiters), tid);
      if k < |e.waiters| then e.(waiters := RemoveAt(e.waiters, k)) else e
    case Resets => Event({}, [])
  }

  function Run(e: Event, flag: Flag, run: seq<Action>): Event
    decreases |run|
  {
    if run == [] then e else Step(Run(e, flag, run[..|run| - 1]), flag, run[|run| - 1])
  }

  /** Nobody sleeps on a condition that is met, and nobody's request is malformed. */
  predicate Inv(e: Event) {
    Asking(e.waiters) && forall r :: r in e.waiters ==> !Satisfied(e.bits, r.want, r.flags)
  }

  lemma FewerBitsSatisfyLess(fewer: Bits, bits: Bits, r: Request)
    requires fewer <= bits
    ensures Satisfied(fewer, r.want, r.flags) ==> Satisfied(bits, r.want, r.flags)
  {
    assert r.want * fewer <= r.want * bits <= r.want;
  }

  lemma {:induction false} DeliverShrinks(bits: Bits, q: seq<Request>)
    ensures Deliver(bits, q).0 <= bits
  {
    if q != [] {
      DeliverShrinks(Poll(bits, q[0].want, q[0].flags).0, q[1..]);
    }
  }

  /** A request that was not met when its turn came is not met by what the later ones leave over either. */
  lemma StaysUnmet(r: Request, bits: Bits, q: seq<Request>)
    requires !Satisfied(bits, r.want, r.flags)
    ensures !Satisfied(Deliver(bits, q).0, r.want, r.flags)
  {
    DeliverShrinks(bits, q);
    FewerBitsSatisfyLess(Deliver(bits, q).0, bits, r);
  }

  /** Whoever keeps waiting after a delivery is not satisfied by what remains, whatever was cleared in between. */
  lemma {:induction false} DeliverSettles(bits: Bits, q: seq<Request>)
    ensures var (final, kept, woken) := Deliver(bits, q);
            && |kept| + |woken| == |q|
            && (forall r :: r in kept ==> r in q && !Satisfied(final, r.want, r.flags))
  {
    if q != [] {
      var (rest, got) := Poll(bits, q[0].want, q[0].flags);
      DeliverSettles(rest, q[1..]);
      if got == None {
        StaysUnmet(q[0], bits, q[1..]);
      }
    }
  }

  /** In every reachable state no suspended thread's condition holds. */
  lemma {:induction false} RunKeepsInv(flag: Flag, run: seq<Action>)
    ensures Inv(Run(Event({}, []), flag, run))
  {
    if run != [] {
      RunKeepsInv(flag, run[..|run| - 1]);
      StepKeepsInv(Run(Event({}, []), flag, run[..|run| - 1]), flag, run[|run| - 1]);
    }
  }

  lemma {:induction false} StepKeepsInv(e: Event, flag: Flag, a: Action)
    requires Inv(e)
    ensures Inv(Step(e, flag, a))
  {
    match a {
      case Sends(more) =>
        DeliverSettles(e.bits + more, e.waiters);
      case Recvs(r, timeout) =>
        if r.flags.all || r.flags.any {
          RecvKeepsInv(e, flag, r, timeout);
        }
      case Expires(tid) =>
      case Resets =>
    }
  }

  lemma {:induction false} RecvKeepsInv(e: Event, flag: Flag, r: Request, timeout: int)
    requires Inv(e) && (r.flags.all || r.flags.any)
    ensures Inv(Recv(e, flag, r, timeout).0)
  {
    var e' := Recv(e, flag, r, timeout).0;
    forall x | x in e'.waiters && x != r ensures x in e.waiters && !Satisfied(e'.bits, x.want, x.flags) {
      FewerBitsSatisfyLess(e'.bits, e.bits, x);
    }
  }

  // ----- the order of the waiters -----

  ghost predicate Ordered(e: Event, flag: Flag) {
    flag == Prio ==> Sorted(Queue(e.waiters))
  }

  lemma {:induction false} SuspendKeepsSorted(q: seq<Request>, r: Request)
    requires Sorted(Queue(q))
    ensures Sorted(Queue(Suspend(Prio, q, r)))
  {
    EnqueueKeepsSorted(Queue(q), r.w);
    assert Queue(Suspend(Prio, q, r)) == Enqueue(Prio, Queue(q), r.w);
  }

  /** Those who keep waiting after a delivery do so in their old order. */
  lemma {:induction false} DeliverKeepsSorted(bits: Bits, q: seq<Request>)
    requires Sorted(Queue(q))
    ensures var kept := Deliver(bits, q).1; Sorted(Queue(kept)) && forall r :: r in kept ==> r in q
  {
    if q != [] {
      var rest := Poll(bits, q[0].want, q[0].flags).0;
      assert Queue(q[1..]) == Queue(q)[1..];
      DeliverKeepsSorted(rest, q[1..]);
      var kept := Deliver(rest, q[1..]).1;
      PrependKeepsSorted(q, kept);
    }
  }

  lemma {:induction false} PrependKeepsSorted(q: seq<Request>, kept: seq<Request>)
    requires q != [] && Sorted(Queue(q)) && Sorted(Queue(kept)) && forall r :: r in kept ==> r in q
    ensures Sorted(Queue([q[0]] + kept))
  {
    var all := [q[0]] + kept;
    forall i, j | 0 <= i < j < |all| ensures Queue(all)[i].prio <= Queue(all)[j].prio {
      assert all[j] == kept[j - 1] && kept[j - 1] in q;
      var k :| 0 <= k < |q| && q[k] == all[j];
      assert Queue(q)[0].prio <= Queue(q)[k].prio;
      assert i > 0 ==> Queue(kept)[i - 1].prio <= Queue(kept)[j - 1].prio;
    }
  }

  /** With the priority flag the waiters stay sorted over every run, so that they are served by urgency. */
  lemma {:induction false} RunKeepsOrder(flag: Flag, run: seq<Action>)
    ensures Ordered(Run(Event({}, []), flag, run), flag)
  {
    if run != [] && flag == Prio {
      var e, a := Run(Event({}, []), flag, run[..|run| - 1]), run[|run| - 1];
      RunKeepsOrder(flag, run[..|run| - 1]);
      match a {
        case Sends(more) => DeliverKeepsSorted(e.bits + more, e.waiters);
        case Recvs(r, timeout) => SuspendKeepsSorted(e.waiters, r);
        case Expires(tid) =>
          LeaveKeepsSorted(Queue(e.waiters), tid);
          assert Queue(Step(e, flag, a).waiters) == Leave(Queue(e.waiters), tid);
        case Resets =>
      }
    }
  }

  /** When nobody asks for bits to be cleared, a send wakes exactly those whose condition the new set meets. */
  lemma {:induction false} SendWithoutClear(bits: Bits, q: seq<Request>)
    requires forall r :: r in q ==> !r.flags.clear
    ensures var (final, kept, woken) := Deliver(bits, q);
            && final == bits && (forall r :: r in kept <==> r in q && !Satisfied(bits, r.want, r.flags))
            && (forall g :: g in woken <==> exists r :: r in q && Satisfied(bits, r.want, r.flags) && g == Received(r.w.tid, bits * r.want))
  {
    if q != [] {
      SendWithoutClear(bits, q[1..]);
      var (final, kept, woken) := Deliver(bits, q);
      var (final', kept', woken') := Deliver(bits, q[1..]);
      assert q == [q[0]] + q[1..];
      if Satisfied(bits, q[0].want, q[0].flags) {
        assert woken == [Received(q[0].w.tid, bits * q[0].want)] + woken' && kept == kept';
      } else {
        assert kept == [q[0]] + kept' && woken == woken';
      }
    }
  }

  /** When everybody asks for clearing, each bit of the set goes to exactly one waiter or stays. */
  lemma {:induction false} SendWithClear(bits: Bits, q: seq<Request>)
    requires forall r :: r in q ==> r.flags.clear
    ensures var (final, kept, woken) := Deliver(bits, q); Shared(bits, final, woken)
  {
    if q != [] {
      var (rest, r) := Poll(bits, q[0].want, q[0].flags);
      SendWithClear(rest, q[1..]);
      var (final, kept, woken) := Deliver(rest, q[1..]);
      if r.Some? {
        SharedOneMore(bits, rest, final, woken, Received(q[0].w.tid, r.value));
      }
    }
  }

  // ----- bit by bit -----

  /** Every bit wanted is set. */
  ghost predicate HasAll(bits: Bits, want: Bits) {
    forall b :: b in want ==> b in bits
  }

  /** Some bit wanted is set. */
  ghost predicate HasAny(bits: Bits, want: Bits) {
    exists b :: b in want && b in bits
  }

  /** `got` are the bits wanted that were set. */
  ghost predicate Exactly(got: Bits, bits: Bits, want: Bits) {
    forall b :: b in got <==> b in bits && b in want
  }

  /** `rest` is what remains of `bits`: with RT_EVENT_FLAG_CLEAR without those wanted, otherwise all. */
  ghost predicate Remains(rest: Bits, bits: Bits, r: Request) {
    forall b :: b in rest <==> b in bits && !(r.flags.clear && b in r.want)
  }

  lemma Subset(bits: Bits, want: Bits)
    ensures want * bits == want <==> HasAll(bits, want)
    ensures want * bits != {} <==> HasAny(bits, want)
  {
    assert want * bits == want <==> want <= bits;
    if HasAny(bits, want) {
      var b :| b in want && b in bits;
      assert b in want * bits;
    }
    if want * bits != {} {
      var b :| b in want * bits;
    }
  }

  /** A receive with RT_EVENT_FLAG_AND gets an answer if and only if all bits wanted are set, one with
      RT_EVENT_FLAG_OR alone if and only if some are: those wanted that were set. Otherwise a timeout of 0 gives up
      and any other one waits. */
  lemma RecvAnswers(e: Event, flag: Flag, r: Request, timeout: int)
    requires r.flags.all || r.flags.any
    ensures var (e', res) := Recv(e, flag, r, timeout); var met := if r.flags.all then HasAll(e.bits, r.want) else HasAny(e.bits, r.want);
            && (res == NothingAsked <==> r.want == {}) && (res.Got? <==> r.want != {} && met)
            && (res == TimedOut <==> r.want != {} && !met && timeout == 0) && (res == Blocked <==> r.want != {} && !met && timeout != 0)
            && (res.Got? ==> Exactly(res.got, e.bits, r.want) && Remains(e'.bits, e.bits, r))
            && (!res.Got? ==> e'.bits == e.bits) && (res != Blocked ==> e'.waiters == e.waiters)
            && (res == Blocked && Ordered(e, flag) ==> r in e'.waiters && Queued(flag, Queue(e.waiters), Queue(e'.waiters), r.w))
  {
    Subset(e.bits, r.want);
    SuspendPlace(flag, e.waiters, r);
  }

  lemma SuspendPlace(flag: Flag, q: seq<Request>, r: Request)
    ensures r in Suspend(flag, q, r)
    ensures (flag == Prio ==> Sorted(Queue(q))) ==> Queued(flag, Queue(q), Queue(Suspend(flag, q, r)), r.w)
  {
    var k := if flag == Fifo then |q| else Position(Queue(q), r.w.prio);
    assert Suspend(flag, q, r) == InsertAt(q, k, r) && InsertAt(q, k, r)[k] == r;
    assert Queue(Suspend(flag, q, r)) == Enqueue(flag, Queue(q), r.w);
    if flag == Prio ==> Sorted(Queue(q)) {
      EnqueuePlace(flag, Queue(q), r.w);
    }
  }

  lemma {:induction false} DeliverOneMore(bits: Bits, q: seq<Request>, r: Request)
    ensures var (final, kept, woken) := Deliver(bits, q);
            Deliver(bits, q + [r]) ==
              match Poll(final, r.want, r.flags)
              case (rest, Some(got)) => (rest, kept, woken + [Received(r.w.tid, got)])
              case (_, None) => (final, kept + [r], woken)
  {
    if q == [] {
      var (rest, got) := Poll(bits, r.want, r.flags);
      assert q + [r] == [r] && [r][1..] == [] && Deliver(rest, []) == (rest, [], []);
      if got.Some? {
        var woken := [Received(r.w.tid, got.value)];
        assert Deliver(bits, [r]) == (rest, [], woken + []);
        assert woken + [] == [] + woken;
      } else {
        assert Deliver(bits, [r]) == (bits, [r] + [], []);
        assert [r] + [] == [] + [r];
      }
    } else {
      var (rest, got) := Poll(bits, q[0].want, q[0].flags);
      assert (q + [r])[0] == q[0] && (q + [r])[1..] == q[1..] + [r];
      DeliverOneMore(rest, q[1..], r);
      var (final, kept, woken) := Deliver(rest, q[1..]);
      if got.Some? {
        var w := Received(q[0].w.tid, got.value);
        assert forall x :: [w] + (woken + [x]) == ([w] + woken) + [x];
      } else {
        assert [q[0]] + (kept + [r]) == ([q[0]] + kept) + [r];
      }
    }
  }

  /** A send serves the waiters in their order, each one with what those before it have left: one that asked with
      RT_EVENT_FLAG_AND is woken if and only if all its bits are left, one with RT_EVENT_FLAG_OR alone if and only if
      some are; it receives exactly those, and takes them from the ones behind it if it asked for clearing. */
  lemma {:induction false} DeliverInTurn(bits: Bits, q: seq<Request>, k: nat)
    requires k < |q| && (q[k].flags.all || q[k].flags.any)
    ensures var (left, kept, woken) := Deliver(bits, q[..k]); var (left', kept', woken') := Deliver(bits, q[..k + 1]);
            if (if q[k].flags.all then HasAll(left, q[k].want) else HasAny(left, q[k].want)) then
              && kept' == kept && |woken'| == |woken| + 1 && woken <= woken' && Remains(left', left, q[k])
              && woken'[|woken|].tid == q[k].w.tid && Exactly(woken'[|woken|].got, left, q[k].want)
            else
              left' == left && kept' == kept + [q[k]] && woken' == woken
  {
    assert q[..k + 1] == q[..k] + [q[k]];
    DeliverOneMore(bits, q[..k], q[k]);
    Subset(Deliver(bits, q[..k]).0, q[k].want);
  }

  /** In every reachable state a thread that waits with RT_EVENT_FLAG_AND lacks some bit it wants, and one that waits
      with RT_EVENT_FLAG_OR alone lacks all of them; in particular after a send. */
  lemma {:induction false} RunLeavesUnmet(flag: Flag, run: seq<Action>, r: Request)
    requires r in Run(Event({}, []), flag, run).waiters
    ensures var bits := Run(Event({}, []), flag, run).bits;
            && (r.flags.all ==> exists b :: b in r.want && b !in bits)
            && (!r.flags.all ==> r.flags.any && forall b :: b in r.want ==> b !in bits)
  {
    RunKeepsInv(flag, run);
    Subset(Run(Event({}, []), flag, run).bits, r.want);
  }

  /** A send of no bits is an error; any other one serves the waiters with its bits besides those that were set. */
  lemma SendAnswers(e: Event, more: Bits, all: Bits)
    requires forall b :: b in all <==> b in e.bits || b in more
    ensures var (e', r) := Send(e, more);
            && (more == {} ==> r == NothingSent && e' == e)
            && (more != {} ==> r.Sent? && (e'.bits, e'.waiters, r.woken) == Deliver(all, e.waiters))
  {
    assert all == e.bits + more;
  }

  ghost predicate Shared(bits: Bits, final: Bits, woken: seq<Received>) {
    && (forall b :: b in bits <==> b in final || exists g :: g in woken && b in g.got)
    && (forall g :: g in woken ==> g.got !! final)
    && (forall i, j :: 0 <= i < j < |woken| ==> woken[i].got !! woken[j].got)
  }

  lemma SharedOneMore(bits: Bits, rest: Bits, final: Bits, woken: seq<Received>, g: Received)
    requires Shared(rest, final, woken) && bits == rest + g.got && rest !! g.got
    ensures Shared(bits, final, [g] + woken)
  {
    var all := [g] + woken;
    forall x | x in woken ensures x in all && x.got <= rest {
      assert forall b :: b in x.got ==> b in rest;
    }
    forall i, j | 0 <= i < j < |all| ensures all[i].got !! all[j].got {
      assert all[j] in woken;
      assert i > 0 ==> all[i] == woken[i - 1] && all[j] == woken[j - 1];
    }
    forall b ensures b in bits <==> b in final || exists x :: x in all && b in x.got {
      assert g in all;
    }
  }
}

/** The event flags as ipc.c keeps them, the suspended threads on the pointers of rtservice.h. */
module Event {
  import opened WaitQueue
  import opened RtDef
  import opened EventSpec
  import opened RtList

  /** `d` is what delivery amounts to after `kept` stayed, `woken` left and `rest` is yet to happen. */
  ghost predicate Continues(d: (Bits, seq<Request>, seq<Received>), rest: (Bits, seq<Request>, seq<Received>),
                            kept: seq<Request>, woken: seq<Received>)
  {
    d.0 == rest.0 && d.1 == kept + rest.1 && d.2 == woken + rest.2
  }

  lemma NextTurn(d: (Bits, seq<Request>, seq<Received>), bits: Bits, q: seq<Request>, kept: seq<Request>, woken: seq<Received>)
    requires q != [] && Continues(d, Deliver(bits, q), kept, woken)
    ensures match Poll(bits, q[0].want, q[0].flags)
            case (rest, Some(got)) => Continues(d, Deliver(rest, q[1..]), kept, woken + [Received(q[0].w.tid, got)])
            case (_, None) => Continues(d, Deliver(bits, q[1..]), kept + [q[0]], woken)
  {
  }

  /** Delivery `d` when the walk over the queue has come to place `k - 1` of what is left of it, `q`. */
  ghost predicate Walks(d: (Bits, seq<Request>, seq<Received>), bits: Bits, q: seq<Request>, k: nat, woken: seq<Received>) {
    1 <= k <= |q| + 1 && Continues(d, Deliver(bits, q[k - 1..]), q[..k - 1], woken)
  }

  lemma WalkOn(d: (Bits, seq<Request>, seq<Received>), bits: Bits, q: seq<Request>, k: nat, woken: seq<Received>)
    requires Walks(d, bits, q, k, woken) && k <= |q|
    ensures match Poll(bits, q[k - 1].want, q[k - 1].flags)
            case (rest, Some(got)) => Walks(d, rest, RemoveAt(q, k - 1), k, woken + [Received(q[k - 1].w.tid, got)])
            case (_, None) => Walks(d, bits, q, k + 1, woken)
  {
    var t := q[k - 1..];
    assert t[1..] == q[k..] && t[0] == q[k - 1];
    NextTurn(d, bits, t, q[..k - 1], woken);
    var c := RemoveAt(q, k - 1);
    assert c[k - 1..] == q[k..] && c[..k - 1] == q[..k - 1];
    assert q[..k] == q[..k - 1] + [q[k - 1]];
  }

  lemma WalkEnds(d: (Bits, seq<Request>, seq<Received>), bits: Bits, q: seq<Request>, woken: seq<Received>)
    requires Walks(d, bits, q, |q| + 1, woken)
    ensures d.0 == bits && d.1 == q && d.2 == woken
  {
    assert q[|q|..] == [] && q[..|q|] == q;
  }

  ghost function RequestOf(x: Node): Request
    reads x
  {
    Request(Waiter(x.tid, x.current_priority), x.event_set, x.event_info)
  }

  /** The requests a ring of threads stands for. */
  ghost function Requests(c: seq<Node>): (q: seq<Request>)
    requires |c| > 0
    reads c
    ensures |q| == |c| - 1 && forall i :: 0 <= i < |q| ==> q[i] == RequestOf(c[i + 1])
  {
    seq(|c| - 1, i requires 0 <= i < |c| - 1 reads c => RequestOf(c[i + 1]))
  }

  datatype Verdict = Met | Unmet | Malformed

  /** The condition of rt_event_send for one thread: a poll, which leaves the bits received in its event_set. */
  method Judge(thread: Node, bits: Bits) returns (v: Verdict)
    modifies thread`event_set
    ensures v == Malformed <==> !thread.event_info.all && !thread.event_info.any
    ensures v == Met ==> Poll(bits, old(thread.event_set), thread.event_info).1 == Some(thread.event_set)
    ensures v == Unmet ==> Poll(bits, old(thread.event_set), thread.event_info).1 == None
    ensures v != Met ==> thread.event_set == old(thread.event_set)
  {
    v := Unmet;
    assert bits * thread.event_set == thread.event_set * bits;
    if thread.event_info.all {
      if thread.event_set * bits == thread.event_set {
        v := Met;
      }
    } else if thread.event_info.any {
      if thread.event_set * bits != {} {
        thread.event_set := thread.event_set * bits;
        v := Met;
      }
    } else {
      v := Malformed;
    }
  }

  /** The same for a thread in a ring: the others are not touched. */
  method JudgeAt(thread: Node, bits: Bits, ghost c: seq<Node>, ghost k: nat) returns (v: Verdict)
    requires Ring(c) && 0 < k < |c| && thread == c[k]
    modifies thread`event_set
    ensures Ring(c) && Requests(c) == old(Requests(c))[k - 1 := RequestOf(thread)] && thread.event_info == old(thread.event_info)
    ensures v != Met ==> RequestOf(thread) == old(Requests(c))[k - 1]
    ensures v == Malformed <==> !thread.event_info.all && !thread.event_info.any
    ensures var r := old(Requests(c))[k - 1];
            && (v == Met ==> Poll(bits, r.want, r.flags).1 == Some(thread.event_set))
            && (v == Unmet ==> Poll(bits, r.want, r.flags).1 == None)
  {
    ghost var q := Requests(c);
    v := Judge(thread, bits);
    forall i: nat | i < |c| ensures Linked(c, i) {
      assert old(Linked(c, i));
    }
    ghost var e := q[k - 1 := RequestOf(thread)];
    forall i | 0 <= i < |e| ensures Requests(c)[i] == e[i] {
      assert i != k - 1 ==> c[i + 1] != thread;
    }
    assert Requests(c) == e;
  }

  /** A thread leaves the ring; what it stood for meanwhile does not matter. */
  method Resume(thread: Node, ghost c: seq<Node>, ghost k: nat) returns (ghost d: seq<Node>)
    requires Ring(c) && 0 < k < |c| && thread == c[k]
    modifies c
    ensures Ring(d) && d == RemoveAt(c, k) && Requests(d) == RemoveAt(old(Requests(c)), k - 1)
    ensures thread.event_set == old(thread.event_set) && thread.event_info == old(thread.event_info)
  {
    ghost var e := RemoveAt(Requests(c), k - 1);
    d := Unlink(thread, c, k);
    assert Same(c[k]);
    forall i | 0 <= i < |e| ensures Requests(d)[i] == e[i] {
      assert d[i + 1] == c[if i < k - 1 then i + 1 else i + 2];
      assert d[i + 1] in c && Same(d[i + 1]);
    }
    assert Requests(d) == e;
  }

  class Event {
    var bits: Bits
    const suspend_thread: Node   // the head of the wait list
    const flag: Flag
    ghost var ring: seq<Node>    // the list's nodes, the head first

    ghost function State(): EventSpec.Event
      requires |ring| > 0
      reads this, ring
    {
      EventSpec.Event(bits, Requests(ring))
    }

    ghost predicate Valid()
      reads this, ring
    {
      Ring(ring) && ring[0] == suspend_thread && Distinct(Queue(Requests(ring)))
    }

    /** rt_event_init. */
    constructor (flag: Flag)
      ensures Valid() && State() == EventSpec.Event({}, []) && this.flag == flag
      ensures fresh(suspend_thread) && ring == [suspend_thread]
    {
      var head := new Node(0, 0);
      bits, this.flag, suspend_thread, ring := {}, flag, head, [head];
    }

    /** One turn of the walk of rt_event_send: what a satisfied thread received is left in its event_set. */
    method Turn(thread: Node, ghost k: nat) returns (v: Verdict)
      requires Valid() && 0 < k < |ring| && thread == ring[k]
      modifies this`bits, this`ring, ring
      ensures Valid()
      ensures v == Malformed <==> !old(thread.event_info).all && !old(thread.event_info).any
      ensures v != Met ==> bits == old(bits) && ring == old(ring) && Requests(ring) == old(Requests(ring))
      ensures v == Met ==> ring == RemoveAt(old(ring), k) && Requests(ring) == RemoveAt(old(Requests(ring)), k - 1)
      ensures var r := old(Requests(ring))[k - 1];
              && (v == Met ==> bits == Poll(old(bits), r.want, r.flags).0 && Poll(old(bits), r.want, r.flags).1 == Some(thread.event_set))
              && (v == Unmet ==> Poll(old(bits), r.want, r.flags).1 == None)
    {
      ghost var q := Requests(ring);
      DistinctRest(q, k - 1);
      v := JudgeAt(thread, bits, ring, k);
      assert v != Met ==> Requests(ring) == q;
      if v == Met {
        if thread.event_info.clear {
          bits := bits - thread.event_set;
        }
        ring := Resume(thread, ring, k);
      }
    }

    /** rt_event_send: one walk over the suspended threads, in which those satisfied leave the list; the walk
        moves on before a thread is unlinked. The -RT_EINVAL exit is for malformed requests. */
    method Send(more: Bits) returns (r: SendResult)
      requires Valid()
      modifies this, ring
      ensures Valid() && (Asking(old(State()).waiters) ==> (State(), r) == EventSpec.Send(old(State()), more))
    {
      if more == {} {
        return NothingSent;
      }
      bits := bits + more;
      r := Walk();
    }

    /** The walk, the new bits being set. */
    method Walk() returns (r: SendResult)
      requires Valid()
      modifies this, ring
      ensures Valid()
      ensures Asking(old(State()).waiters) ==>
                var (final, kept, woken) := Deliver(old(bits), old(State()).waiters);
                bits == final && Requests(ring) == kept && r == Sent(woken)
    {
      ghost var all, nodes := Requests(ring), ring;
      ghost var d, k := Deliver(bits, all), 1;
      var woken := [];
      assert all[0..] == all && all[..0] == [] && Linked(ring, 0);
      var n := suspend_thread.next;
      while n != suspend_thread
        invariant Valid() && 1 <= k <= |ring| && n == (if k < |ring| then ring[k] else suspend_thread)
        invariant Walks(d, bits, Requests(ring), k, woken) && (Asking(all) ==> Asking(Requests(ring)))
        invariant Among(ring, nodes)
        decreases |ring| - k
      {
        var thread := n;
        assert Linked(ring, k);
        n := n.next;
        WalkOn(d, bits, Requests(ring), k, woken);
        AmongRest(ring, nodes, k);
        AskingRest(Requests(ring), k - 1);
        var v := Turn(thread, k);
        if v == Malformed {
          return Invalid;
        }
        if v == Met {
          woken := woken + [Received(thread.tid, thread.event_set)];
        } else {
          k := k + 1;
        }
      }
      WalkEnds(d, bits, Requests(ring), woken);
      return Sent(woken);
    }

    /** rt_event_recv by `thread` up to the point where it has its answer or is suspended. */
    method Recv(thread: Node, want: Bits, option: Flags, timeout: int) returns (res: RecvResult)
      requires Valid() && thread !in ring && thread.tid !in Tids(Queue(Requests(ring)))   // it runs, so it does not wait
      requires option.all || option.any     // asserted by the source
      modifies this, ring, thread
      ensures Valid()
      ensures (State(), res) == EventSpec.Recv(old(State()), flag, Request(Waiter(thread.tid, old(thread.current_priority)), want, option), timeout)
      ensures res.Got? ==> thread.event_set == res.got
      ensures forall x :: x in ring <==> x in old(ring) || (res == Blocked && x == thread)
    {
      if want == {} {
        return NothingAsked;
      }
      var satisfied := if option.all then bits * want == want else bits * want != {};
      if satisfied {
        SetEvent(thread, bits * want, option);
        res := Got(bits * want);
        if option.clear {
          bits := bits - want;
        }
      } else if timeout == 0 {
        res := TimedOut;
      } else {
        SetEvent(thread, want, option);
        DistinctMore(flag, Requests(ring), RequestOf(thread));
        ring := Enlist(suspend_thread, thread, flag, ring);
        res := Blocked;
      }
    }

    /** Fill the thread's event info; it is in no list. */
    method SetEvent(thread: Node, event_set: Bits, option: Flags)
      requires Valid() && thread !in ring
      modifies thread`event_set, thread`event_info
      ensures Valid() && Requests(ring) == old(Requests(ring)) && thread.event_set == event_set && thread.event_info == option
    {
      ghost var q := Requests(ring);
      thread.event_set, thread.event_info := event_set, option;
      forall i | 0 <= i < |q| ensures Requests(ring)[i] == q[i] {
        assert ring[i + 1] in ring;
      }
      assert Requests(ring) == q;
    }

    /** The timer of a suspended thread runs out: its node is unlinked, wherever it stands. */
    method TimeOut(thread: Node, ghost k: nat)
      requires Valid() && 0 < k < |ring| && ring[k] == thread
      modifies this`ring, ring
      ensures Valid() && State() == Step(old(State()), flag, Expires(thread.tid))
      ensures ring == RemoveAt(old(ring), k)
    {
      ghost var q := Requests(ring);
      LeaveIs(Queue(q), k - 1);
      assert Where(Queue(q), thread.tid) == k - 1;
      DistinctRest(q, k - 1);
      ring := Resume(thread, ring, k);
    }

    /** rt_event_control with RT_IPC_CMD_RESET: every waiter leaves with an error. */
    method Reset()
      requires Valid()
      modifies this, ring
      ensures Valid() && State() == EventSpec.Event({}, [])
    {
      ghost var nodes := ring;
      var empty := IsEmpty(suspend_thread, ring);
      while !empty
        invariant Valid() && (empty <==> |ring| == 1) && Among(ring, nodes)
        decreases |ring|
      {
        AmongRest(ring, nodes, 1);
        ResumeFirst();
        empty := IsEmpty(suspend_thread, ring);
      }
      bits := {};
      assert Requests(ring) == [];
    }

    /** The first waiter leaves the list with an error. */
    method ResumeFirst()
      requires Valid() && |ring| > 1
      modifies this`ring, ring
      ensures Valid() && ring == RemoveAt(old(ring), 1)
    {
      assert Linked(ring, 0);
      DistinctRest(Requests(ring), 0);
      ring := Resume(suspend_thread.next, ring, 1);
    }
  }

  lemma DistinctRest(q: seq<Request>, k: nat)
    requires k < |q| && Distinct(Queue(q))
    ensures Distinct(Queue(RemoveAt(q, k)))
  {
    RemoveMembers(Queue(q), k);
    assert Queue(RemoveAt(q, k)) == RemoveAt(Queue(q), k);
  }

  lemma DistinctMore(flag: Flag, q: seq<Request>, r: Request)
    requires Distinct(Queue(q)) && r.w.tid !in Tids(Queue(q))
    ensures Distinct(Queue(EventSpec.Suspend(flag, q, r)))
  {
    EnqueueMembers(flag, Queue(q), r.w);
    assert Queue(EventSpec.Suspend(flag, q, r)) == Enqueue(flag, Queue(q), r.w);
  }

  /** _ipc_list_suspend of a thread with its event info. */
  method Enlist(list: Node, thread: Node, flag: Flag, ghost c: seq<Node>) returns (ghost d: seq<Node>)
    requires Ring(c) && list == c[0] && thread !in c
    modifies c, thread
    ensures Ring(d) && d[0] == list && thread.event_set == old(thread.event_set)
    ensures forall x :: x in d <==> x in c || x == thread
    ensures Requests(d) == EventSpec.Suspend(flag, old(Requests(c)), old(RequestOf(thread)))
  {
    ghost var q, r := Requests(c), RequestOf(thread);
    ghost var k := 1 + PlaceFor(flag, Waiting(c), thread.current_priority);
    assert Queue(q) == Waiting(c);
    d := RtList.Suspend(list, thread, flag, c);
    ghost var e := InsertAt(q, k - 1, r);
    assert d[k] == thread && thread in d && Same(thread);
    forall i | 0 <= i < |e| ensures Requests(d)[i] == e[i] {
      assert d[i + 1] == if i < k - 1 then c[i + 1] else if i > k - 1 then c[i] else thread;
      assert d[i + 1] in d && Same(d[i + 1]);
    }
    assert Requests(d) == e;
    assert e == EventSpec.Suspend(flag, q, r);
  }

  ghost predicate Among(c: seq<Node>, nodes: seq<Node>) {
    forall i :: 0 <= i < |c| ==> c[i] in nodes
  }

  lemma AmongRest(c: seq<Node>, nodes: seq<Node>, k: nat)
    requires Among(c, nodes) && k < |c|
    ensures Among(RemoveAt(c, k), nodes)
  {
  }

  lemma AskingRest(q: seq<Request>, k: nat)
    requires k < |q|
    ensures Asking(q) ==> Asking(RemoveAt(q, k)) && (q[k].flags.all || q[k].flags.any)
  {
  }
}
