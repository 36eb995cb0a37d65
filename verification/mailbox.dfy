/** What the mailbox of ipc.c does: a bounded double-ended queue of mails with two wait queues. */
module MailboxSpec {
  import opened WaitQueue
  import opened Parking
  import opened Delivery

  datatype Mb = Mb(size: nat, mails: seq<nat>, receivers: Lot, senders: Lot)

  datatype SendResult = Sent | Full | SendBlocked
  datatype RecvResult = Received(value: nat) | NoMail | RecvBlocked

  /** rt_mb_send_wait: one look at the mailbox, on entry or after having been resumed. */
  function Send(s: Mb, flag: Flag, w: Waiter, value: nat, timeout: int): (Mb, SendResult) {
    var t := s.(senders := Look(s.senders, w.tid));
    if |s.mails| == s.size then
      if timeout == 0 then (t, Full) else (t.(senders := Park(t.senders, flag, w)), SendBlocked)
    else (t.(mails := s.mails + [value], receivers := Wake(s.receivers)), Sent)
  }

  /** rt_mb_urgent. */
  function Urgent(s: Mb, value: nat): (Mb, SendResult) {
    if |s.mails| == s.size then (s, Full)
    else (s.(mails := [value] + s.mails, receivers := Wake(s.receivers)), Sent)
  }

  /** rt_mb_recv: one look at the mailbox, on entry or after having been resumed. */
  function Recv(s: Mb, flag: Flag, w: Waiter, timeout: int): (Mb, RecvResult) {
    var t := s.(receivers := Look(s.receivers, w.tid));
    if s.mails == [] then
      if timeout == 0 then (t, NoMail) else (t.(receivers := Park(t.receivers, flag, w)), RecvBlocked)
    else (t.(mails := s.mails[1..], senders := Wake(s.senders)), Received(s.mails[0]))
  }

  /** RT_IPC_CMD_RESET: all waiters leave with an error, all mails are dropped. */
  function Reset(s: Mb): Mb {
    s.(mails := [], receivers := Flush(s.receivers), senders := Flush(s.senders))
  }

  // ----- runs: sections in any interleaving -----

  datatype Event =
    | Sends(w: Waiter, value: nat, timeout: int)
    | Urgents(value: nat)
    | Recvs(w: Waiter, timeout: int)
    | Expires(tid: nat)
    | Resets

  /** A suspended thread runs no section. */
  ghost predicate Enabled(s: Mb, e: Event) {
    e.Sends? || e.Recvs? ==> !Suspended(s.receivers, e.w.tid) && !Suspended(s.senders, e.w.tid)
  }

  /** The mailbox and the mails accepted and delivered since the last reset, in order. */
  datatype Log = Log(mb: Mb, sent: seq<nat>, received: seq<nat>)

  ghost function Step(l: Log, flag: Flag, e: Event): Log {
    if !Enabled(l.mb, e) then l else
    match e
    case Sends(w, value, timeout) =>
      var (s, r) := Send(l.mb, flag, w, value, timeout);
      l.(mb := s, sent := if r == Sent then l.sent + [value] else l.sent)
    case Urgents(value) =>
      var (s, r) := Urgent(l.mb, value);
      l.(mb := s, sent := if r == Sent then l.sent + [value] else l.sent)
    case Recvs(w, timeout) =>
      var (s, r) := Recv(l.mb, flag, w, timeout);
      l.(mb := s, received := if r.Received? then l.received + [r.value] else l.received)
    case Expires(tid) =>
      l.(mb := l.mb.(receivers := Expire(l.mb.receivers, tid), senders := Expire(l.mb.senders, tid)))
    case Resets => Log(Reset(l.mb), [], [])
  }

  ghost function Run(l: Log, flag: Flag, es: seq<Event>): Log
    decreases |es|
  {
    if es == [] then l else Step(Run(l, flag, es[..|es| - 1]), flag, es[|es| - 1])
  }

  function Init(size: nat): Log {
    Log(Mb(size, [], EMPTY, EMPTY), [], [])
  }

  /** No lost wakeup: receivers wait only for mails that resumed receivers will fetch,
      senders only for slots that resumed senders will fill. */
  ghost predicate Inv(s: Mb) {
    |s.mails| <= s.size && Covered(s.receivers, |s.mails|) && Covered(s.senders, s.size - |s.mails|)
  }

  lemma {:induction false} SendKeepsInv(s: Mb, flag: Flag, w: Waiter, value: nat, timeout: int)
    requires Inv(s) && !Suspended(s.senders, w.tid)
    ensures Inv(Send(s, flag, w, value, timeout).0)
  {
    LookCovers(s.senders, w.tid, s.size - |s.mails|);
    ParkCovers(s.senders, flag, w);
    WakeCovers(s.receivers, |s.mails|);
  }

  lemma {:induction false} RecvKeepsInv(s: Mb, flag: Flag, w: Waiter, timeout: int)
    requires Inv(s) && !Suspended(s.receivers, w.tid)
    ensures Inv(Recv(s, flag, w, timeout).0)
  {
    LookCovers(s.receivers, w.tid, |s.mails|);
    ParkCovers(s.receivers, flag, w);
    WakeCovers(s.senders, s.size - |s.mails|);
  }

  lemma {:induction false} StepKeepsInv(l: Log, flag: Flag, e: Event)
    requires Inv(l.mb)
    ensures Inv(Step(l, flag, e).mb) && Step(l, flag, e).mb.size == l.mb.size
  {
    if Enabled(l.mb, e) {
      match e {
        case Sends(w, value, timeout) => SendKeepsInv(l.mb, flag, w, value, timeout);
        case Urgents(value) => WakeCovers(l.mb.receivers, |l.mb.mails|);
        case Recvs(w, timeout) => RecvKeepsInv(l.mb, flag, w, timeout);
        case Expires(tid) =>
          ExpireCovers(l.mb.receivers, tid, |l.mb.mails|);
          ExpireCovers(l.mb.senders, tid, l.mb.size - |l.mb.mails|);
        case Resets =>
      }
    }
  }

  /** In every reachable state, whatever the interleaving, no wakeup is lost. */
  lemma {:induction false} RunKeepsInv(size: nat, flag: Flag, es: seq<Event>)
    ensures Inv(Run(Init(size), flag, es).mb) && Run(Init(size), flag, es).mb.size == size
  {
    if es != [] {
      RunKeepsInv(size, flag, es[..|es| - 1]);
      StepKeepsInv(Run(Init(size), flag, es[..|es| - 1]), flag, es[|es| - 1]);
    }
  }

  /** What a call answers, over every run, depends on how many of the mails accepted since the last reset are yet to be
      delivered: a send is accepted if and only if these are fewer than the size, a receive gets one if and only if
      there are any; otherwise a timeout of 0 gives up and any other one waits, but an urgent send never does. */
  lemma RunAnswers(size: nat, flag: Flag, es: seq<Event>, w: Waiter, value: nat, timeout: int)
    requires Enabled(Run(Init(size), flag, es).mb, Recvs(w, timeout))
    ensures var l := Run(Init(size), flag, es); var (s, r) := Send(l.mb, flag, w, value, timeout); var due := |l.sent| - |l.received|;
            && (r == Sent <==> due < size) && (r == Full <==> due == size && timeout == 0) && (r == SendBlocked <==> due == size && timeout != 0)
            && (Suspended(s.senders, w.tid) <==> r == SendBlocked) && w.tid !in s.senders.ready
            && (r == SendBlocked ==> Queued(flag, l.mb.senders.waiting, s.senders.waiting, w))
            && Urgent(l.mb, value).1 == if due < size then Sent else Full
    ensures var l := Run(Init(size), flag, es); var (s, r) := Recv(l.mb, flag, w, timeout); var due := |l.sent| - |l.received|;
            && (r.Received? <==> due > 0) && (r == NoMail <==> due == 0 && timeout == 0) && (r == RecvBlocked <==> due == 0 && timeout != 0)
            && (Suspended(s.receivers, w.tid) <==> r == RecvBlocked) && w.tid !in s.receivers.ready
            && (r == RecvBlocked ==> Queued(flag, l.mb.receivers.waiting, s.receivers.waiting, w))
  {
    var l := Run(Init(size), flag, es);
    RunKeepsInv(size, flag, es);
    RunConserves(size, flag, es);
    RunKeepsOrder(size, flag, es);
    assert |multiset(l.received) + multiset(l.mb.mails)| == |multiset(l.sent)|;
    ParkSuspends(l.mb.senders, flag, w);
    ParkSuspends(l.mb.receivers, flag, w);
  }

  /** After a reset nobody waits, and there is room for `size` mails and nothing to receive. */
  lemma ResetClears(l: Log, flag: Flag, w: Waiter)
    ensures var s := Step(l, flag, Resets).mb;
            && !Suspended(s.receivers, w.tid) && !Suspended(s.senders, w.tid) && Recv(s, flag, w, 0).1 == NoMail
            && (Send(s, flag, w, 0, 0).1 == Sent <==> l.mb.size > 0)
  {
  }

  ghost predicate WaitOrder(s: Mb, flag: Flag) {
    Ordered(s.receivers, flag) && Ordered(s.senders, flag)
  }

  lemma {:induction false} LookKeepsOrder(s: Mb, flag: Flag, w: Waiter, value: nat, timeout: int)
    requires WaitOrder(s, flag)
    ensures WaitOrder(Send(s, flag, w, value, timeout).0, flag) && WaitOrder(Recv(s, flag, w, timeout).0, flag)
  {
    OrderKept(s.senders, flag, w);
    OrderKept(s.receivers, flag, w);
  }

  lemma {:induction false} OthersKeepOrder(s: Mb, flag: Flag, tid: nat, value: nat)
    requires WaitOrder(s, flag)
    ensures WaitOrder(Urgent(s, value).0, flag) && WaitOrder(Reset(s), flag)
    ensures WaitOrder(s.(receivers := Expire(s.receivers, tid), senders := Expire(s.senders, tid)), flag)
  {
    OrderKept(s.senders, flag, Waiter(tid, 0));
    OrderKept(s.receivers, flag, Waiter(tid, 0));
  }

  lemma {:induction false} StepKeepsOrder(l: Log, flag: Flag, e: Event)
    requires WaitOrder(l.mb, flag)
    ensures WaitOrder(Step(l, flag, e).mb, flag)
  {
    match e {
      case Sends(w, value, timeout) => LookKeepsOrder(l.mb, flag, w, value, timeout);
      case Recvs(w, timeout) => LookKeepsOrder(l.mb, flag, w, 0, timeout);
      case Urgents(value) => OthersKeepOrder(l.mb, flag, 0, value);
      case Expires(tid) => OthersKeepOrder(l.mb, flag, tid, 0);
      case Resets => OthersKeepOrder(l.mb, flag, 0, 0);
    }
  }

  /** In every reachable state both wait queues are in order. */
  lemma {:induction false} RunKeepsOrder(size: nat, flag: Flag, es: seq<Event>)
    ensures WaitOrder(Run(Init(size), flag, es).mb, flag)
  {
    if es != [] {
      RunKeepsOrder(size, flag, es[..|es| - 1]);
      StepKeepsOrder(Run(Init(size), flag, es[..|es| - 1]), flag, es[|es| - 1]);
    }
  }

  function BooksOf(l: Log): Books<nat> {
    Books(l.sent, l.received, l.mb.mails)
  }

  /** What each kind of section is for: a send puts its own value at the back, an urgent send at the
      front, both only if there is room; a receive takes the first mail off; nothing else touches mails. */
  ghost function MoveOf(s: Mb, e: Event): Move<nat> {
    if !Enabled(s, e) then Stay else
    match e
    case Sends(_, value, _) => if |s.mails| == s.size then Stay else Back(value)
    case Urgents(value) => if |s.mails| == s.size then Stay else Front(value)
    case Recvs(_, _) => Off
    case _ => Stay
  }

  lemma {:induction false} StepMoves(l: Log, flag: Flag, e: Event)
    ensures BooksOf(Step(l, flag, e)) == if e.Resets? then Books([], [], []) else Book(BooksOf(l), MoveOf(l.mb, e))
  {
  }

  /** The mails delivered and those in the box are, counted with multiplicity, the mails accepted. */
  lemma {:induction false} RunConserves(size: nat, flag: Flag, es: seq<Event>)
    ensures Conserved(BooksOf(Run(Init(size), flag, es)))
  {
    if es != [] {
      var l, e := Run(Init(size), flag, es[..|es| - 1]), es[|es| - 1];
      RunConserves(size, flag, es[..|es| - 1]);
      StepMoves(l, flag, e);
      BookConserves(BooksOf(l), MoveOf(l.mb, e));
    }
  }

  /** Without urgent mails delivery is first in, first out: what was accepted is what was delivered, then what is in the box. */
  lemma {:induction false} RunIsFifo(size: nat, flag: Flag, es: seq<Event>)
    requires forall e :: e in es ==> !e.Urgents?
    ensures InOrder(BooksOf(Run(Init(size), flag, es)))
  {
    if es != [] {
      var l, e := Run(Init(size), flag, es[..|es| - 1]), es[|es| - 1];
      RunIsFifo(size, flag, es[..|es| - 1]);
      assert e in es;
      StepMoves(l, flag, e);
      BookInOrder(BooksOf(l), MoveOf(l.mb, e));
    }
  }
}

/** The mailbox as ipc.c keeps it: a ring of slots with offsets. */
module Mailbox {
  import opened WaitQueue
  import opened Parking
  import opened MailboxSpec
  import opened RtDef

  const ENTRY_MAX: nat := 0xffff   // RT_MB_ENTRY_MAX; mb->size is a 16-bit field

  /** The slot `i` places after slot `o` in a ring of `n`. */
  function Slot(o: nat, i: nat, n: nat): nat {
    if o + i < n then o + i else o + i - n
  }

  /** `n` slots of the ring `pool`, from slot `o` on. */
  function Ring(pool: seq<nat>, o: nat, n: nat): seq<nat>
    requires n <= |pool| && (n > 0 ==> o < |pool|)
  {
    seq(n, i requires 0 <= i < n => pool[Slot(o, i, |pool|)])
  }

  lemma SlotIsModulo(o: nat, i: nat, n: nat)
    requires o < n && i <= n
    ensures Slot(o, i, n) == (o + i) % n
  {
    RemainderIs(o + i, n, if o + i < n then 0 else 1, Slot(o, i, n));
  }

  class Mailbox {
    const msg_pool: array<nat>
    const size: nat
    const flag: Flag
    var entry: nat
    var in_offset: nat
    var out_offset: nat
    var suspend_thread: seq<Waiter>
    var suspend_sender_thread: seq<Waiter>
    ghost var rready: set<nat>
    ghost var sready: set<nat>

    /** The offsets delimit the mails in the ring. */
    ghost predicate Valid()
      reads this`entry, this`in_offset, this`out_offset
    {
      var n := size;
      n <= ENTRY_MAX && n <= msg_pool.Length && entry <= n &&
      if n == 0 then in_offset == 0 && out_offset == 0
      else in_offset < n && out_offset < n && in_offset == Slot(out_offset, entry, n)
    }

    /** The mails in the box, the next one to be delivered first. */
    ghost function Mails(): (m: seq<nat>)
      requires Valid()
      reads this`entry, this`in_offset, this`out_offset, msg_pool
    {
      Ring(msg_pool[..size], out_offset, entry)
    }

    ghost function State(): Mb
      requires Valid()
      reads this, msg_pool
    {
      Mb(size, Mails(), Lot(suspend_thread, rready), Lot(suspend_sender_thread, sready))
    }

    /** rt_mb_init: the size is kept in 16 bits, so a larger pool is used in part. */
    constructor (msgpool: array<nat>, size: nat, flag: Flag)
      requires size <= msgpool.Length
      ensures Valid() && State() == Init(size % 0x10000).mb && msg_pool == msgpool && this.flag == flag
    {
      msg_pool, this.size, this.flag := msgpool, size % 0x10000, flag;
      entry, in_offset, out_offset := 0, 0, 0;
      suspend_thread, suspend_sender_thread, rready, sready := [], [], {}, {};
    }

    /** _ipc_list_resume of the first receiver, if any. */
    method WakeReceiver()
      modifies this`suspend_thread, this`rready
      ensures Lot(suspend_thread, rready) == Wake(old(Lot(suspend_thread, rready)))
    {
      if suspend_thread != [] {
        rready := rready + {suspend_thread[0].tid};
        suspend_thread := suspend_thread[1..];
      }
    }

    method WakeSender()
      modifies this`suspend_sender_thread, this`sready
      ensures Lot(suspend_sender_thread, sready) == Wake(old(Lot(suspend_sender_thread, sready)))
    {
      if suspend_sender_thread != [] {
        sready := sready + {suspend_sender_thread[0].tid};
        suspend_sender_thread := suspend_sender_thread[1..];
      }
    }

    /** One section of rt_mb_send_wait. */
    method Send(w: Waiter, value: nat, timeout: int) returns (r: SendResult)
      requires Valid()
      modifies this, msg_pool
      ensures Valid() && (State(), r) == MailboxSpec.Send(old(State()), flag, w, value, timeout)
    {
      ghost var mails := Mails();
      sready := sready - {w.tid};
      if entry == size {
        if timeout == 0 {
          return Full;
        }
        suspend_sender_thread := Enqueue(flag, suspend_sender_thread, w);
        return SendBlocked;
      }
      msg_pool[in_offset] := value;
      in_offset := in_offset + 1;
      if in_offset >= size {
        in_offset := 0;
      }
      if entry < ENTRY_MAX {
        entry := entry + 1;
      } else {
        assert false;   // the overflow exit: entry is below size here
      }
      assert Mails() == mails + [value];
      WakeReceiver();
      r := Sent;
    }

    /** rt_mb_urgent. */
    method Urgent(value: nat) returns (r: SendResult)
      requires Valid()
      modifies this, msg_pool
      ensures Valid() && (State(), r) == MailboxSpec.Urgent(old(State()), value)
    {
      ghost var mails := Mails();
      if entry == size {
        return Full;
      }
      if out_offset > 0 {
        out_offset := out_offset - 1;
      } else {
        out_offset := size - 1;
      }
      msg_pool[out_offset] := value;
      entry := entry + 1;
      assert Mails() == [value] + mails;
      WakeReceiver();
      r := Sent;
    }

    /** One section of rt_mb_recv. */
    method Recv(w: Waiter, timeout: int) returns (r: RecvResult)
      requires Valid()
      modifies this
      ensures Valid() && (State(), r) == MailboxSpec.Recv(old(State()), flag, w, timeout)
    {
      ghost var mails := Mails();
      rready := rready - {w.tid};
      if entry == 0 {
        if timeout == 0 {
          return NoMail;
        }
        suspend_thread := Enqueue(flag, suspend_thread, w);
        return RecvBlocked;
      }
      var value := msg_pool[out_offset];
      out_offset := out_offset + 1;
      if out_offset >= size {
        out_offset := 0;
      }
      if entry > 0 {
        entry := entry - 1;
      }
      assert Mails() == mails[1..];
      WakeSender();
      r := Received(value);
    }

    /** rt_mb_control with RT_IPC_CMD_RESET. */
    method Reset()
      requires Valid()
      modifies this
      ensures Valid() && State() == MailboxSpec.Reset(old(State()))
    {
      suspend_thread, suspend_sender_thread := [], [];
      entry, in_offset, out_offset := 0, 0, 0;
    }

    /** The offsets agree with the number of mails, modulo the ring size. */
    lemma OffsetsAgree()
      requires Valid() && size > 0
      ensures in_offset == (out_offset + entry) % size
    {
      SlotIsModulo(out_offset, entry, size);
    }
  }
}
