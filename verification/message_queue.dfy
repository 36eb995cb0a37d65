/** What the message queue of ipc.c does. A send takes a free slot in one section, copies the message
    with interrupts enabled, and links the slot in a second section; a receive is the mirror image. */
module MessageQueueSpec {
  import opened RtDef
  import opened WaitQueue
  import opened Parking
  import opened Delivery

  type Message = seq<nat>

  /** What a send is about: the thread, its message, and whether the message has been copied into the slot yet. */
  datatype Job = Job(tid: nat, message: Message, urgent: bool, filled: bool)

  /** `body` holds the bytes of each slot; `queue` and `free` list slots in order; slots in `sending`
      and `receiving` are in the hands of a thread. */
  datatype Mq = Mq(max: nat, msg_size: nat, body: seq<Message>, queue: seq<nat>, free: seq<nat>,
                   sending: map<nat, Job>, receiving: set<nat>, receivers: Lot, senders: Lot)

  datatype BeginResult = Slot(slot: nat) | Unavailable | Parked | Refused

  /** First section of rt_mq_send_wait: one look at the free list, on entry or after having been resumed. */
  function SendBegin(s: Mq, flag: Flag, w: Waiter, message: Message, timeout: int): (Mq, BeginResult) {
    if |message| > s.msg_size then (s, Refused)
    else
      var t := s.(senders := Look(s.senders, w.tid));
      if s.free == [] then
        if timeout == 0 then (t, Unavailable) else (t.(senders := Park(t.senders, flag, w)), Parked)
      else (t.(free := s.free[1..], sending := s.sending[s.free[0] := Job(w.tid, message, false, false)]), Slot(s.free[0]))
  }

  /** First section of rt_mq_urgent. */
  function UrgentBegin(s: Mq, tid: nat, message: Message): (Mq, BeginResult) {
    if |message| > s.msg_size then (s, Refused)
    else if s.free == [] then (s, Unavailable)
    else (s.(free := s.free[1..], sending := s.sending[s.free[0] := Job(tid, message, true, false)]), Slot(s.free[0]))
  }

  /** The copy of a send: the message, followed by what the slot held behind it. */
  function Filled(old_body: Message, message: Message): Message {
    if |message| <= |old_body| then message + old_body[|message|..] else message
  }

  function Fill(s: Mq, slot: nat): Mq
    requires slot < |s.body| && slot in s.sending
  {
    var job := s.sending[slot];
    s.(body := s.body[slot := Filled(s.body[slot], job.message)], sending := s.sending[slot := job.(filled := true)])
  }

  /** Second section of rt_mq_send_wait. */
  function SendLink(s: Mq, slot: nat): Mq {
    s.(queue := s.queue + [slot], sending := s.sending - {slot}, receivers := Wake(s.receivers))
  }

  /** Second section of rt_mq_urgent. */
  function UrgentLink(s: Mq, slot: nat): Mq {
    s.(queue := [slot] + s.queue, sending := s.sending - {slot}, receivers := Wake(s.receivers))
  }

  /** First section of rt_mq_recv: one look at the queue. */
  function RecvBegin(s: Mq, flag: Flag, w: Waiter, timeout: int): (Mq, BeginResult) {
    var t := s.(receivers := Look(s.receivers, w.tid));
    if s.queue == [] then
      if timeout == 0 then (t, Unavailable) else (t.(receivers := Park(t.receivers, flag, w)), Parked)
    else (t.(queue := s.queue[1..], receiving := s.receiving + {s.queue[0]}), Slot(s.queue[0]))
  }

  /** Second section of rt_mq_recv. */
  function RecvEnd(s: Mq, slot: nat): Mq {
    s.(free := [slot] + s.free, receiving := s.receiving - {slot}, senders := Wake(s.senders))
  }

  function Reverse(q: seq<nat>): seq<nat> {
    if q == [] then [] else Reverse(q[1..]) + [q[0]]
  }

  /** RT_IPC_CMD_RESET: the queued slots go to the free list one by one. */
  function Reset(s: Mq): Mq {
    s.(queue := [], free := Reverse(s.queue) + s.free, receivers := Flush(s.receivers), senders := Flush(s.senders))
  }

  // ----- runs: sections and copies in any interleaving -----

  datatype Event =
    | SendsBegin(w: Waiter, message: Message, timeout: int)
    | UrgentsBegin(tid: nat, message: Message)
    | Fills(tid: nat, slot: nat)
    | SendsLink(tid: nat, slot: nat)
    | UrgentsLink(tid: nat, slot: nat)
    | RecvsBegin(w: Waiter, timeout: int)
    | RecvsEnd(slot: nat)
    | Expires(tid: nat)
    | Resets

  ghost predicate Owns(s: Mq, tid: nat, slot: nat, urgent: bool, filled: bool) {
    slot in s.sending && s.sending[slot].tid == tid && s.sending[slot].urgent == urgent && s.sending[slot].filled == filled
  }

  /** A suspended thread runs no section; the sender a slot was given to, and nobody else, fills it once and then links it. */
  ghost predicate Enabled(s: Mq, e: Event) {
    match e
    case SendsBegin(w, _, _) => !Suspended(s.receivers, w.tid) && !Suspended(s.senders, w.tid)
    case RecvsBegin(w, _) => !Suspended(s.receivers, w.tid) && !Suspended(s.senders, w.tid)
    case Fills(tid, slot) => slot < |s.body| && (Owns(s, tid, slot, false, false) || Owns(s, tid, slot, true, false))
    case SendsLink(tid, slot) => Owns(s, tid, slot, false, true)
    case UrgentsLink(tid, slot) => Owns(s, tid, slot, true, true)
    case RecvsEnd(slot) => slot in s.receiving
    case _ => true
  }

  ghost function Step(s: Mq, flag: Flag, e: Event): Mq {
    if !Enabled(s, e) then s else
    match e
    case SendsBegin(w, message, timeout) => SendBegin(s, flag, w, message, timeout).0
    case UrgentsBegin(tid, message) => UrgentBegin(s, tid, message).0
    case Fills(_, slot) => Fill(s, slot)
    case SendsLink(_, slot) => SendLink(s, slot)
    case UrgentsLink(_, slot) => UrgentLink(s, slot)
    case RecvsBegin(w, timeout) => RecvBegin(s, flag, w, timeout).0
    case RecvsEnd(slot) => RecvEnd(s, slot)
    case Expires(tid) => s.(receivers := Expire(s.receivers, tid), senders := Expire(s.senders, tid))
    case Resets => Reset(s)
  }

  ghost function Run(s: Mq, flag: Flag, es: seq<Event>): Mq
    decreases |es|
  {
    if es == [] then s else Step(Run(s, flag, es[..|es| - 1]), flag, es[|es| - 1])
  }

  /** In how many places slot `x` is. */
  ghost function Places(s: Mq, x: nat): nat {
    multiset(s.queue)[x] + multiset(s.free)[x] + (if x in s.sending then 1 else 0) + (if x in s.receiving then 1 else 0)
  }

  /** Every slot is in exactly one place: queued, free, being filled or being read. */
  ghost predicate Partition(s: Mq) {
    |s.body| == s.max && forall x: nat {:trigger Places(s, x)} :: Places(s, x) == if x < s.max then 1 else 0
  }

  /** Receivers wait only for messages that resumed receivers will fetch, senders only for slots that resumed senders will fill. */
  ghost predicate NoneLost(s: Mq) {
    Covered(s.receivers, |s.queue|) && Covered(s.senders, |s.free|)
  }

  ghost predicate Inv(s: Mq) {
    Partition(s) && NoneLost(s)
  }

  lemma {:induction false} HeadPlace(s: Mq, x: nat)
    requires Partition(s)
    ensures s.free != [] ==> s.free[0] < s.max && s.free[0] !in s.sending && s.free[0] !in s.receiving
    ensures s.queue != [] ==> s.queue[0] < s.max && s.queue[0] !in s.sending && s.queue[0] !in s.receiving
    ensures s.free != [] ==> multiset(s.free)[x] == multiset(s.free[1..])[x] + (if x == s.free[0] then 1 else 0)
    ensures s.queue != [] ==> multiset(s.queue)[x] == multiset(s.queue[1..])[x] + (if x == s.queue[0] then 1 else 0)
  {
    if s.free != [] {
      assert Places(s, s.free[0]) <= 1;
      assert s.free == [s.free[0]] + s.free[1..];
    }
    if s.queue != [] {
      assert Places(s, s.queue[0]) <= 1;
      assert s.queue == [s.queue[0]] + s.queue[1..];
    }
  }

  lemma {:induction false} CountsTwice(q: seq<nat>, i: nat, j: nat)
    requires i < j < |q| && q[i] == q[j]
    ensures multiset(q)[q[i]] >= 2
  {
    assert q == q[..j] + q[j..];
    assert q[..j][i] == q[i] && q[j..][0] == q[i];
  }

  lemma {:induction false} DistinctBounded(q: seq<nat>, n: nat)
    requires (forall i, j :: 0 <= i < j < |q| ==> q[i] != q[j]) && forall i :: 0 <= i < |q| ==> q[i] < n
    ensures |q| <= n
  {
    if q != [] {
      assert q[0] < n;
      if k: nat :| k < |q| && q[k] == n - 1 {
        DistinctBounded(RemoveAt(q, k), n - 1);
      } else {
        DistinctBounded(q, n - 1);
      }
    }
  }

  /** Queued slots are distinct, and a slot in the hands of a thread leaves room for one more in the queue. */
  lemma {:induction false} QueueHasRoom(s: Mq, slot: nat)
    requires Partition(s) && (slot in s.sending || slot in s.receiving)
    ensures forall i, j :: 0 <= i < j < |s.queue| ==> s.queue[i] != s.queue[j]
    ensures slot < s.max && slot !in s.queue && slot !in s.free && !(slot in s.sending && slot in s.receiving)
    ensures |s.queue| < s.max
  {
    assert Places(s, slot) <= 1;
    assert slot in s.queue ==> multiset(s.queue)[slot] > 0;
    assert slot in s.free ==> multiset(s.free)[slot] > 0;
    forall i, j | 0 <= i < j < |s.queue| ensures s.queue[i] != s.queue[j] {
      assert Places(s, s.queue[i]) <= 1;
      if s.queue[i] == s.queue[j] { CountsTwice(s.queue, i, j); }
    }
    forall i | 0 <= i < |s.queue| ensures s.queue[i] < s.max {
      assert multiset(s.queue)[s.queue[i]] > 0;
      assert Places(s, s.queue[i]) >= 1;
    }
    DistinctBounded(s.queue + [slot], s.max);
  }

  lemma {:induction false} QueuedElsewhere(s: Mq, slot: nat)
    requires Partition(s) && slot in s.queue
    ensures slot !in s.free && slot !in s.sending && slot !in s.receiving
  {
    assert Places(s, slot) <= 1;
    assert multiset(s.queue)[slot] > 0;
    assert slot in s.free ==> multiset(s.free)[slot] > 0;
  }

  /** The tail is the head only of a queue of one. */
  lemma {:induction false} TailIsHead(s: Mq)
    requires Partition(s) && s.queue != []
    ensures s.queue[|s.queue| - 1] == s.queue[0] <==> |s.queue| == 1
  {
    assert Places(s, s.queue[0]) <= 1;
    if |s.queue| > 1 && s.queue[|s.queue| - 1] == s.queue[0] {
      CountsTwice(s.queue, 0, |s.queue| - 1);
    }
  }

  lemma {:induction false} ReverseMultiset(q: seq<nat>)
    ensures multiset(Reverse(q)) == multiset(q) && |Reverse(q)| == |q|
  {
    if q != [] {
      ReverseMultiset(q[1..]);
      assert q == [q[0]] + q[1..];
    }
  }

  lemma {:induction false} BeginKeepsPlaces(s: Mq, flag: Flag, w: Waiter, message: Message, timeout: int, x: nat)
    requires Partition(s)
    ensures Places(SendBegin(s, flag, w, message, timeout).0, x) == Places(s, x)
    ensures Places(UrgentBegin(s, w.tid, message).0, x) == Places(s, x)
  {
    HeadPlace(s, x);
  }

  lemma {:induction false} RecvKeepsPlaces(s: Mq, flag: Flag, w: Waiter, timeout: int, x: nat)
    requires Partition(s)
    ensures Places(RecvBegin(s, flag, w, timeout).0, x) == Places(s, x)
  {
    HeadPlace(s, x);
  }

  lemma {:induction false} LinkKeepsPlaces(s: Mq, slot: nat, x: nat)
    ensures slot in s.sending ==> Places(SendLink(s, slot), x) == Places(s, x)
    ensures slot in s.sending ==> Places(UrgentLink(s, slot), x) == Places(s, x)
    ensures slot in s.receiving ==> Places(RecvEnd(s, slot), x) == Places(s, x)
  {
  }

  /** No step moves a slot out of its one place without putting it in another. */
  lemma {:induction false} StepKeepsPlaces(s: Mq, flag: Flag, e: Event, x: nat)
    requires Partition(s)
    ensures Places(Step(s, flag, e), x) == Places(s, x)
  {
    if Enabled(s, e) {
      match e {
        case SendsBegin(w, message, timeout) => BeginKeepsPlaces(s, flag, w, message, timeout, x);
        case RecvsBegin(w, timeout) => RecvKeepsPlaces(s, flag, w, timeout, x);
        case UrgentsBegin(tid, message) => BeginKeepsPlaces(s, flag, Waiter(tid, 0), message, 0, x);
        case SendsLink(_, slot) => LinkKeepsPlaces(s, slot, x);
        case UrgentsLink(_, slot) => LinkKeepsPlaces(s, slot, x);
        case RecvsEnd(slot) => LinkKeepsPlaces(s, slot, x);
        case Resets => ReverseMultiset(s.queue);
        case _ =>
      }
    }
  }

  lemma {:induction false} BeginKeepsPartition(s: Mq, flag: Flag, w: Waiter, message: Message, timeout: int)
    requires Partition(s)
    ensures Partition(SendBegin(s, flag, w, message, timeout).0) && Partition(UrgentBegin(s, w.tid, message).0)
    ensures Partition(RecvBegin(s, flag, w, timeout).0)
  {
    forall x: nat
      ensures Places(SendBegin(s, flag, w, message, timeout).0, x) == Places(s, x)
      ensures Places(UrgentBegin(s, w.tid, message).0, x) == Places(s, x)
      ensures Places(RecvBegin(s, flag, w, timeout).0, x) == Places(s, x)
    {
      BeginKeepsPlaces(s, flag, w, message, timeout, x);
      RecvKeepsPlaces(s, flag, w, timeout, x);
    }
  }

  /** Queued slots are distinct and nowhere else. */
  lemma {:induction false} QueueApart(s: Mq)
    requires Partition(s)
    ensures forall i, j :: 0 <= i < j < |s.queue| ==> s.queue[i] != s.queue[j]
    ensures forall i :: 0 <= i < |s.queue| ==> s.queue[i] !in s.free && s.queue[i] !in s.sending
  {
    forall i, j | 0 <= i < j < |s.queue| ensures s.queue[i] != s.queue[j] {
      assert Places(s, s.queue[i]) <= 1;
      if s.queue[i] == s.queue[j] { CountsTwice(s.queue, i, j); }
    }
    forall i | 0 <= i < |s.queue| ensures s.queue[i] !in s.free && s.queue[i] !in s.sending {
      QueuedElsewhere(s, s.queue[i]);
    }
  }

  lemma {:induction false} StepKeepsPartition(s: Mq, flag: Flag, e: Event)
    requires Partition(s)
    ensures Partition(Step(s, flag, e)) && Step(s, flag, e).max == s.max
  {
    forall x: nat ensures Places(Step(s, flag, e), x) == Places(s, x) {
      StepKeepsPlaces(s, flag, e, x);
    }
  }

  lemma {:induction false} SendKeepsCover(s: Mq, flag: Flag, w: Waiter, message: Message, timeout: int)
    requires NoneLost(s) && !Suspended(s.senders, w.tid)
    ensures NoneLost(SendBegin(s, flag, w, message, timeout).0)
  {
    LookCovers(s.senders, w.tid, |s.free|);
    ParkCovers(s.senders, flag, w);
  }

  lemma {:induction false} RecvKeepsCover(s: Mq, flag: Flag, w: Waiter, timeout: int)
    requires NoneLost(s) && !Suspended(s.receivers, w.tid)
    ensures NoneLost(RecvBegin(s, flag, w, timeout).0)
  {
    LookCovers(s.receivers, w.tid, |s.queue|);
    ParkCovers(s.receivers, flag, w);
  }

  lemma {:induction false} OthersKeepCover(s: Mq, tid: nat, message: Message, slot: nat)
    requires NoneLost(s)
    ensures NoneLost(UrgentBegin(s, tid, message).0) && NoneLost(SendLink(s, slot)) && NoneLost(UrgentLink(s, slot)) && NoneLost(RecvEnd(s, slot))
    ensures NoneLost(s.(receivers := Expire(s.receivers, tid), senders := Expire(s.senders, tid)))
  {
    if s.free != [] { FewerUnits(s.senders, |s.free|, |s.free| - 1); }
    WakeCovers(s.receivers, |s.queue|);
    WakeCovers(s.senders, |s.free|);
    ExpireCovers(s.receivers, tid, |s.queue|);
    ExpireCovers(s.senders, tid, |s.free|);
  }

  lemma {:induction false} StepKeepsCover(s: Mq, flag: Flag, e: Event)
    requires NoneLost(s)
    ensures NoneLost(Step(s, flag, e))
  {
    if Enabled(s, e) {
      match e {
        case SendsBegin(w, message, timeout) => SendKeepsCover(s, flag, w, message, timeout);
        case RecvsBegin(w, timeout) => RecvKeepsCover(s, flag, w, timeout);
        case UrgentsBegin(tid, message) => OthersKeepCover(s, tid, message, 0);
        case SendsLink(_, slot) => OthersKeepCover(s, 0, [], slot);
        case UrgentsLink(_, slot) => OthersKeepCover(s, 0, [], slot);
        case RecvsEnd(slot) => OthersKeepCover(s, 0, [], slot);
        case Expires(tid) => OthersKeepCover(s, tid, [], 0);
        case _ =>
      }
    }
  }

  function Init(msg_size: nat, body: seq<Message>): Mq {
    Mq(|body|, msg_size, body, [], Reverse(Iota(|body|)), map[], {}, EMPTY, EMPTY)
  }

  function Iota(n: nat): seq<nat> {
    if n == 0 then [] else Iota(n - 1) + [n - 1]
  }

  lemma {:induction false} IotaCounts(n: nat, x: nat)
    ensures multiset(Iota(n))[x] == (if x < n then 1 else 0) && |Iota(n)| == n
  {
    if n > 0 { IotaCounts(n - 1, x); }
  }

  /** Under any interleaving the slots stay partitioned and no wakeup is lost. */
  lemma {:induction false} RunKeepsInv(msg_size: nat, body: seq<Message>, flag: Flag, es: seq<Event>)
    ensures Inv(Run(Init(msg_size, body), flag, es)) && Run(Init(msg_size, body), flag, es).max == |body|
  {
    if es == [] {
      ReverseMultiset(Iota(|body|));
      forall x: nat ensures Places(Init(msg_size, body), x) == if x < |body| then 1 else 0 {
        IotaCounts(|body|, x);
      }
    } else {
      RunKeepsInv(msg_size, body, flag, es[..|es| - 1]);
      var s := Run(Init(msg_size, body), flag, es[..|es| - 1]);
      StepKeepsPartition(s, flag, es[|es| - 1]);
      StepKeepsCover(s, flag, es[|es| - 1]);
    }
  }

  /** The slots that hold a message or are in the hands of a thread. */
  ghost function Busy(s: Mq): nat {
    |s.queue| + |s.sending| + |s.receiving|
  }

  lemma {:induction false} CountSlots(s: Mq)
    requires Partition(s)
    ensures |s.free| + Busy(s) == s.max
  {
    var all := multiset(s.queue) + multiset(s.free) + multiset(s.sending.Keys) + multiset(s.receiving);
    IotaCounts(s.max, 0);
    forall x: nat ensures all[x] == multiset(Iota(s.max))[x] {
      IotaCounts(s.max, x);
      assert Places(s, x) == if x < s.max then 1 else 0;
    }
    assert all == multiset(Iota(s.max));
    assert |s.sending.Keys| == |s.sending|;
  }

  lemma {:induction false} RunKeepsSize(msg_size: nat, body: seq<Message>, flag: Flag, es: seq<Event>)
    ensures Run(Init(msg_size, body), flag, es).msg_size == msg_size
  {
    if es != [] {
      RunKeepsSize(msg_size, body, flag, es[..|es| - 1]);
    }
  }

  /** What the first section of a call answers, over every run: a message is refused if and only if it is longer than
      `msg_size`; one that is not gets a slot if and only if not all of them are busy; otherwise a timeout of 0 gives
      up and any other one waits, but an urgent send never does. The slot is nobody else's. */
  lemma SendAnswers(msg_size: nat, body: seq<Message>, flag: Flag, es: seq<Event>, w: Waiter, message: Message, timeout: int)
    requires Enabled(Run(Init(msg_size, body), flag, es), RecvsBegin(w, timeout))
    ensures var s := Run(Init(msg_size, body), flag, es); var (t, r) := SendBegin(s, flag, w, message, timeout);
            && (r == Refused <==> |message| > msg_size) && (r == Refused ==> t == s)
            && (r.Slot? <==> |message| <= msg_size && Busy(s) < |body|)
            && (r == Unavailable <==> |message| <= msg_size && Busy(s) == |body| && timeout == 0)
            && (r == Parked <==> |message| <= msg_size && Busy(s) == |body| && timeout != 0)
            && (r.Slot? ==> Handed(s, t, r.slot, Job(w.tid, message, false, false))) && (!r.Slot? ==> t.sending == s.sending)
            && (Suspended(t.senders, w.tid) <==> r == Parked) && (r != Refused ==> w.tid !in t.senders.ready)
            && (r == Parked ==> Queued(flag, s.senders.waiting, t.senders.waiting, w))
    ensures var s := Run(Init(msg_size, body), flag, es); var (t, r) := UrgentBegin(s, w.tid, message);
            && (r == Refused <==> |message| > msg_size) && (r.Slot? <==> |message| <= msg_size && Busy(s) < |body|)
            && (r == Unavailable <==> |message| <= msg_size && Busy(s) == |body|)
            && (r.Slot? ==> Handed(s, t, r.slot, Job(w.tid, message, true, false))) && (!r.Slot? ==> t == s)
  {
    var s := Run(Init(msg_size, body), flag, es);
    RunKeepsInv(msg_size, body, flag, es);
    RunKeepsSize(msg_size, body, flag, es);
    RunKeepsOrder(msg_size, body, flag, es);
    CountSlots(s);
    HeadPlace(s, 0);
    ParkSuspends(s.senders, flag, w);
    if s.free != [] {
      FirstIsFree(s);
    }
  }

  /** `slot`, which was free, was given to a sender. */
  ghost predicate Handed(s: Mq, t: Mq, slot: nat, job: Job) {
    && slot < s.max && slot !in s.queue && slot !in s.sending && slot !in s.receiving
    && t.sending == s.sending[slot := job] && multiset(t.free) == multiset(s.free) - multiset{slot} && slot !in t.free
  }

  lemma {:induction false} FirstIsFree(s: Mq)
    requires Partition(s) && s.free != []
    ensures s.free[0] !in s.queue && s.free[0] !in s.free[1..] && multiset(s.free[1..]) == multiset(s.free) - multiset{s.free[0]}
  {
    var x := s.free[0];
    assert Places(s, x) <= 1;
    assert s.free == [x] + s.free[1..];
    assert multiset(s.queue)[x] == 0 && multiset(s.free[1..])[x] == 0;
  }

  /** A receive gets a message if and only if one is queued; otherwise a timeout of 0 gives up and any other one waits. */
  lemma RecvAnswers(msg_size: nat, body: seq<Message>, flag: Flag, es: seq<Event>, w: Waiter, timeout: int)
    requires Enabled(Run(Init(msg_size, body), flag, es), RecvsBegin(w, timeout))
    ensures var s := Run(Init(msg_size, body), flag, es); var (t, r) := RecvBegin(s, flag, w, timeout);
            && (r.Slot? <==> s.queue != []) && (r == Unavailable <==> s.queue == [] && timeout == 0) && (r == Parked <==> s.queue == [] && timeout != 0)
            && (r.Slot? ==> [r.slot] + t.queue == s.queue && r.slot !in s.receiving && t.receiving == s.receiving + {r.slot})
            && r != Refused && (Suspended(t.receivers, w.tid) <==> r == Parked) && w.tid !in t.receivers.ready
            && (r == Parked ==> Queued(flag, s.receivers.waiting, t.receivers.waiting, w))
  {
    var s := Run(Init(msg_size, body), flag, es);
    RunKeepsInv(msg_size, body, flag, es);
    RunKeepsOrder(msg_size, body, flag, es);
    ParkSuspends(s.receivers, flag, w);
    if s.queue != [] {
      assert s.queue == [s.queue[0]] + s.queue[1..];
      assert s.queue[0] !in s.receiving by { HeadPlace(s, 0); }
    }
  }

  /** The slot a receiver gives back is the next one to be given to a sender. */
  lemma FreedIsNext(s: Mq, flag: Flag, slot: nat, w: Waiter, message: Message, timeout: int)
    requires |message| <= s.msg_size
    ensures var (t, r) := SendBegin(RecvEnd(s, slot), flag, w, message, timeout); r == Slot(slot) && t.free == s.free
  {
  }

  /** After a reset nobody waits, nothing is queued, and only slots in the hands of threads are not free. */
  lemma ResetClears(s: Mq, flag: Flag, w: Waiter)
    requires Partition(s)
    ensures var t := Reset(s);
            && !Suspended(t.receivers, w.tid) && !Suspended(t.senders, w.tid) && RecvBegin(t, flag, w, 0).1 == Unavailable
            && t.sending == s.sending && t.receiving == s.receiving && |t.free| == s.max - |s.sending| - |s.receiving|
  {
    CountSlots(s);
    ReverseMultiset(s.queue);
  }

  ghost predicate WaitOrder(s: Mq, flag: Flag) {
    Ordered(s.receivers, flag) && Ordered(s.senders, flag)
  }

  lemma {:induction false} BeginKeepsOrder(s: Mq, flag: Flag, w: Waiter, message: Message, timeout: int)
    requires WaitOrder(s, flag)
    ensures WaitOrder(SendBegin(s, flag, w, message, timeout).0, flag) && WaitOrder(RecvBegin(s, flag, w, timeout).0, flag)
  {
    OrderKept(s.receivers, flag, w);
    OrderKept(s.senders, flag, w);
  }

  lemma {:induction false} OthersKeepOrder(s: Mq, flag: Flag, tid: nat, message: Message, slot: nat)
    requires WaitOrder(s, flag)
    ensures WaitOrder(UrgentBegin(s, tid, message).0, flag) && WaitOrder(SendLink(s, slot), flag) && WaitOrder(UrgentLink(s, slot), flag)
    ensures WaitOrder(RecvEnd(s, slot), flag) && WaitOrder(Reset(s), flag)
    ensures WaitOrder(s.(receivers := Expire(s.receivers, tid), senders := Expire(s.senders, tid)), flag)
  {
    OrderKept(s.receivers, flag, Waiter(tid, 0));
    OrderKept(s.senders, flag, Waiter(tid, 0));
  }

  lemma {:induction false} StepKeepsOrder(s: Mq, flag: Flag, e: Event)
    requires WaitOrder(s, flag)
    ensures WaitOrder(Step(s, flag, e), flag)
  {
    match e {
      case SendsBegin(w, message, timeout) => BeginKeepsOrder(s, flag, w, message, timeout);
      case RecvsBegin(w, timeout) => BeginKeepsOrder(s, flag, w, [], timeout);
      case UrgentsBegin(tid, message) => OthersKeepOrder(s, flag, tid, message, 0);
      case SendsLink(_, slot) => OthersKeepOrder(s, flag, 0, [], slot);
      case UrgentsLink(_, slot) => OthersKeepOrder(s, flag, 0, [], slot);
      case RecvsEnd(slot) => OthersKeepOrder(s, flag, 0, [], slot);
      case Expires(tid) => OthersKeepOrder(s, flag, tid, [], 0);
      case Resets => OthersKeepOrder(s, flag, 0, [], 0);
      case Fills(_, _) =>
    }
  }

  /** In every reachable state both wait queues are in order. */
  lemma {:induction false} RunKeepsOrder(msg_size: nat, body: seq<Message>, flag: Flag, es: seq<Event>)
    ensures WaitOrder(Run(Init(msg_size, body), flag, es), flag)
  {
    if es != [] {
      RunKeepsOrder(msg_size, body, flag, es[..|es| - 1]);
      StepKeepsOrder(Run(Init(msg_size, body), flag, es[..|es| - 1]), flag, es[|es| - 1]);
    }
  }

  // ----- delivery -----

  function BodyOf(body: seq<Message>, slot: nat): Message {
    if slot < |body| then body[slot] else []
  }

  /** What the queued slots hold, the next one to be delivered first. */
  function Contents(s: Mq): seq<Message> {
    seq(|s.queue|, i requires 0 <= i < |s.queue| => BodyOf(s.body, s.queue[i]))
  }

  /** What each kind of section does to the queue of slots: linking puts a slot at the back, an urgent one at
      the front; a receive takes the first one off; nothing else, not even a copy, touches what is queued. */
  ghost function SlotMove(s: Mq, e: Event): Move<Message> {
    if !Enabled(s, e) then Stay else
    match e
    case SendsLink(_, slot) => Back(BodyOf(s.body, slot))
    case UrgentsLink(_, slot) => Front(BodyOf(s.body, slot))
    case RecvsBegin(_, _) => Off
    case _ => Stay
  }

  lemma {:induction false} StepMoves(s: Mq, flag: Flag, e: Event)
    requires Partition(s)
    ensures Contents(Step(s, flag, e)) == if e.Resets? then [] else Book(Books([], [], Contents(s)), SlotMove(s, e)).waiting
  {
    if e.Fills? && Enabled(s, e) {
      FillDisturbsNothing(s, e.slot);
    }
  }

  /** A copy into a slot that is being filled disturbs neither queued nor outgoing messages, nor those of other senders. */
  lemma {:induction false} FillDisturbsNothing(s: Mq, slot: nat)
    requires Partition(s) && slot in s.sending && slot < |s.body|
    ensures Contents(Fill(s, slot)) == Contents(s)
    ensures forall x :: x in s.receiving || (x in s.sending && x != slot) ==> BodyOf(Fill(s, slot).body, x) == BodyOf(s.body, x)
  {
    assert Places(s, slot) <= 1;
    assert slot !in multiset(s.queue) && slot !in s.receiving;
    forall i | 0 <= i < |s.queue| ensures s.queue[i] != slot {
      assert s.queue[i] in multiset(s.queue);
    }
  }

  // ----- from the sender's buffer to the receiver's -----

  /** The queue with the messages that senders passed: those accepted, those taken off and those waiting since
      the last reset; `held` is the message that left the queue with each slot. */
  datatype Log = Log(mq: Mq, books: Books<Message>, held: map<nat, Message>)

  /** The same as SlotMove for the messages the senders passed. */
  ghost function MoveOf(s: Mq, e: Event): Move<Message> {
    if !Enabled(s, e) then Stay else
    match e
    case SendsLink(_, slot) => Back(s.sending[slot].message)
    case UrgentsLink(_, slot) => Front(s.sending[slot].message)
    case RecvsBegin(_, _) => Off
    case _ => Stay
  }

  ghost function LogStep(l: Log, flag: Flag, e: Event): Log {
    Log(Step(l.mq, flag, e),
        if e.Resets? then Books([], [], []) else Book(l.books, MoveOf(l.mq, e)),
        if e.RecvsBegin? && Enabled(l.mq, e) && l.mq.queue != [] && l.books.waiting != [] then
          l.held[l.mq.queue[0] := l.books.waiting[0]]
        else l.held)
  }

  ghost function LogRun(l: Log, flag: Flag, es: seq<Event>): Log
    decreases |es|
  {
    if es == [] then l else LogStep(LogRun(l, flag, es[..|es| - 1]), flag, es[|es| - 1])
  }

  ghost predicate Carries(s: Mq, slot: nat, message: Message) {
    message <= BodyOf(s.body, slot)
  }

  /** Every slot carries, at its beginning, the message it stands for: filled slots that of their sender, queued
      slots those waiting in the books, slots being read those that left the queue with them. */
  ghost predicate Carried(l: Log) {
    && |l.books.waiting| == |l.mq.queue|
    && (forall i: nat {:trigger l.mq.queue[i]} :: i < |l.mq.queue| ==> Carries(l.mq, l.mq.queue[i], l.books.waiting[i]))
    && (forall slot :: slot in l.mq.sending && l.mq.sending[slot].filled ==> Carries(l.mq, slot, l.mq.sending[slot].message))
    && (forall slot :: slot in l.mq.receiving ==> slot in l.held && Carries(l.mq, slot, l.held[slot]))
  }

  lemma {:induction false} FillKeepsCarried(l: Log, flag: Flag, e: Event)
    requires Partition(l.mq) && Carried(l) && e.Fills? && Enabled(l.mq, e)
    ensures Carried(LogStep(l, flag, e))
  {
    FillDisturbsNothing(l.mq, e.slot);
    var t := Fill(l.mq, e.slot);
    forall i: nat | i < |t.queue| ensures Carries(t, t.queue[i], l.books.waiting[i]) {
      assert Contents(t)[i] == Contents(l.mq)[i];
      assert Carries(l.mq, l.mq.queue[i], l.books.waiting[i]);
    }
  }

  lemma {:induction false} BeginKeepsCarried(l: Log, flag: Flag, e: Event)
    requires Partition(l.mq) && Carried(l) && (e.SendsBegin? || e.UrgentsBegin?)
    ensures Carried(LogStep(l, flag, e))
  {
  }

  lemma {:induction false} LinkKeepsCarried(l: Log, flag: Flag, e: Event)
    requires Partition(l.mq) && Carried(l) && (e.SendsLink? || e.UrgentsLink?)
    ensures Carried(LogStep(l, flag, e))
  {
  }

  lemma {:induction false} RecvKeepsCarried(l: Log, flag: Flag, e: Event)
    requires Partition(l.mq) && Carried(l) && (e.RecvsBegin? || e.RecvsEnd?)
    ensures Carried(LogStep(l, flag, e))
  {
  }

  lemma {:induction false} LogStepKeepsCarried(l: Log, flag: Flag, e: Event)
    requires Partition(l.mq) && Carried(l)
    ensures Carried(LogStep(l, flag, e))
  {
    match e {
      case SendsBegin(_, _, _) => BeginKeepsCarried(l, flag, e);
      case UrgentsBegin(_, _) => BeginKeepsCarried(l, flag, e);
      case Fills(_, _) => if Enabled(l.mq, e) { FillKeepsCarried(l, flag, e); }
      case SendsLink(_, _) => LinkKeepsCarried(l, flag, e);
      case UrgentsLink(_, _) => LinkKeepsCarried(l, flag, e);
      case RecvsBegin(_, _) => RecvKeepsCarried(l, flag, e);
      case RecvsEnd(_) => RecvKeepsCarried(l, flag, e);
      case _ =>
    }
  }

  /** Delivery refines a queue of the messages that senders pass, whatever happens between the two sections of
      each call: they are neither lost nor duplicated, they leave in the order they were linked unless an urgent
      one was put first, and until a receiver gives its slot back the slot begins with exactly the message
      that was taken off. */
  lemma {:induction false} RunDelivers(msg_size: nat, body: seq<Message>, flag: Flag, es: seq<Event>)
    ensures var l := LogRun(Log(Init(msg_size, body), Books([], [], []), map[]), flag, es);
            Inv(l.mq) && Carried(l) && Conserved(l.books) &&
            ((forall e :: e in es ==> !e.UrgentsLink?) ==> InOrder(l.books))
  {
    if es == [] {
      RunKeepsInv(msg_size, body, flag, []);
    } else {
      var ds, e := es[..|es| - 1], es[|es| - 1];
      RunDelivers(msg_size, body, flag, ds);
      var l := LogRun(Log(Init(msg_size, body), Books([], [], []), map[]), flag, ds);
      StepKeepsPartition(l.mq, flag, e);
      StepKeepsCover(l.mq, flag, e);
      LogStepKeepsCarried(l, flag, e);
      BookConserves(l.books, MoveOf(l.mq, e));
      assert e in es;
      if (forall e :: e in es ==> !e.UrgentsLink?) {
        BookInOrder(l.books, MoveOf(l.mq, e));
      }
    }
  }

  /** The copy of a receive into a buffer of `size` bytes. */
  function Copied(slot_body: Message, size: nat): Message {
    slot_body[..if size > |slot_body| then |slot_body| else size]
  }

  /** What a receiver copies out at any time while the slot is its own begins with the message that was taken
      off, as far as its buffer goes. */
  lemma CopiedMessage(l: Log, slot: nat, size: nat)
    requires Carried(l) && slot in l.mq.receiving
    ensures var m := l.held[slot];
            m[..if size > |m| then |m| else size] <= Copied(BodyOf(l.mq.body, slot), size)
    ensures |Copied(BodyOf(l.mq.body, slot), size)| == Min(size, |BodyOf(l.mq.body, slot)|)
  {
    assert Carries(l.mq, slot, l.held[slot]);
  }
}

/** Singly linked lists threaded through an array of `next` fields. */
module Links {
  const NIL: int := -1

  ghost predicate Link(next: seq<int>, q: seq<nat>, i: nat)
    requires i < |q|
  {
    q[i] < |next| && next[q[i]] == if i + 1 < |q| then q[i + 1] else NIL
  }

  function HeadOf(q: seq<nat>): int {
    if q == [] then NIL else q[0]
  }

  function LastOf(q: seq<nat>): int {
    if q == [] then NIL else q[|q| - 1]
  }

  /** Following `next` from `head` visits exactly the slots `q`. */
  ghost predicate Chained(next: seq<int>, head: int, q: seq<nat>) {
    head == HeadOf(q) && forall i: nat {:trigger Link(next, q, i)} :: i < |q| ==> Link(next, q, i)
  }

  /** A write to the field of a slot outside the list leaves the list alone. */
  lemma {:induction false} WriteOutside(next: seq<int>, head: int, q: seq<nat>, slot: nat, v: int)
    requires Chained(next, head, q) && slot < |next| && slot !in q
    ensures Chained(next[slot := v], head, q)
  {
    var changed := next[slot := v];
    forall i: nat | i < |q| ensures Link(changed, q, i) {
      assert Link(next, q, i);
    }
  }

  lemma {:induction false} Pop(next: seq<int>, head: int, q: seq<nat>)
    requires Chained(next, head, q) && q != []
    ensures q[0] < |next| && Chained(next, next[q[0]], q[1..])
  {
    assert Link(next, q, 0);
    forall i: nat | i < |q[1..]| ensures Link(next, q[1..], i) {
      assert Link(next, q, i + 1);
    }
  }

  lemma {:induction false} Push(next: seq<int>, head: int, q: seq<nat>, slot: nat)
    requires Chained(next, head, q) && slot < |next| && next[slot] == head
    ensures Chained(next, slot, [slot] + q)
  {
    var c := [slot] + q;
    forall i: nat | i < |c| ensures Link(next, c, i) {
      assert i > 0 ==> Link(next, q, i - 1);
    }
  }

  /** Linking `slot`, whose field is NIL, behind the last slot of a list without it. */
  lemma {:induction false} Append(next: seq<int>, head: int, q: seq<nat>, slot: nat)
    requires Chained(next, head, q) && slot < |next| && next[slot] == NIL && q != [] && slot !in q
    requires forall i, j :: 0 <= i < j < |q| ==> q[i] != q[j]
    ensures q[|q| - 1] < |next| && Chained(next[q[|q| - 1] := slot], head, q + [slot])
  {
    var c, last := q + [slot], q[|q| - 1];
    assert Link(next, q, |q| - 1);
    var changed := next[last := slot];
    forall i: nat | i < |c| ensures Link(changed, c, i) {
      assert i < |q| ==> Link(next, q, i);
    }
  }
}

/** The message queue as ipc.c keeps it: slots linked through their headers. */
module MessageQueue {
  import opened WaitQueue
  import opened Parking
  import opened MessageQueueSpec
  import opened Links
  import opened RtDef

  const ENTRY_MAX: nat := 0xffff   // RT_MQ_ENTRY_MAX; mq->max_msgs is a 16-bit field

  const MSG_HEADER: nat := 4   // sizeof(struct rt_mq_message)

  /** mq->msg_size for messages of `msg_size` bytes: rounded up, in a 16-bit field. */
  function SlotSize(msg_size: nat): nat {
    AlignUp(msg_size) % 0x10000
  }

  /** mq->max_msgs: as many slots as fit into the pool, in a 16-bit field. */
  function MaxMsgs(msg_size: nat, pool_size: nat): nat {
    pool_size / (SlotSize(msg_size) + MSG_HEADER) % 0x10000
  }

  /** A slot has room for a message of the size asked for if and only if rounding it up fits 16 bits. */
  lemma SlotSizeCovers(msg_size: nat)
    requires msg_size < WORD
    ensures SlotSize(msg_size) % 4 == 0 && (SlotSize(msg_size) >= msg_size <==> msg_size <= 0xfffc)
    ensures msg_size <= 0xfffc ==> SlotSize(msg_size) < msg_size + 4
  {
    if msg_size <= 0xfffc {
      assert AlignUp(msg_size) < 0x10000;
    }
  }

  /** The slots are as many as fit into the pool with their headers, if that number fits 16 bits. */
  lemma CountExactly(msg_size: nat, pool_size: nat, n: nat)
    requires pool_size < 0x10000 * (SlotSize(msg_size) + MSG_HEADER)
    ensures n <= MaxMsgs(msg_size, pool_size) <==> n * (SlotSize(msg_size) + MSG_HEADER) <= pool_size
  {
    UnitsFit(pool_size, SlotSize(msg_size) + MSG_HEADER, n);
    FewUnits(pool_size, SlotSize(msg_size) + MSG_HEADER);
  }

  lemma FewUnits(pool_size: nat, unit: nat)
    requires unit > 0 && pool_size < 0x10000 * unit
    ensures pool_size / unit % 0x10000 == pool_size / unit
  {
    UnitsFit(pool_size, unit, 0x10000);
    RemainderIs(pool_size / unit, 0x10000, 0, pool_size / unit);
  }

  /** Slots with their headers do not overlap and lie inside the pool. */
  lemma SlotsApart(msg_size: nat, pool_size: nat, i: nat, j: nat)
    requires i < j < MaxMsgs(msg_size, pool_size)
    ensures var unit := SlotSize(msg_size) + MSG_HEADER; i * unit + unit <= j * unit && j * unit + unit <= pool_size
  {
    RemainderAtMost(pool_size / (SlotSize(msg_size) + MSG_HEADER), 0x10000);
    UnitsApart(SlotSize(msg_size) + MSG_HEADER, pool_size, i, j);
  }

  class MessageQueue {
    const next: array<int>         // msg->next of each slot, NIL for RT_NULL
    const bodies: array<Message>   // the bytes behind each slot's header
    const msg_size: nat
    const flag: Flag
    var msg_queue_head: int
    var msg_queue_tail: int
    var msg_queue_free: int
    var entry: nat
    var suspend_thread: seq<Waiter>
    var suspend_sender_thread: seq<Waiter>
    ghost var queue: seq<nat>
    ghost var freelist: seq<nat>
    ghost var sending: map<nat, Job>
    ghost var cleared: set<nat>    // slots of a normal send after `msg->next = RT_NULL`
    ghost var receiving: set<nat>
    ghost var rready: set<nat>
    ghost var sready: set<nat>

    ghost function State(): Mq
      reads this, bodies
    {
      Mq(bodies.Length, msg_size, bodies[..], queue, freelist, sending, receiving,
         Lot(suspend_thread, rready), Lot(suspend_sender_thread, sready))
    }

    ghost predicate Valid()
      reads this, next, bodies
    {
      && next.Length == bodies.Length <= ENTRY_MAX && Partition(State())
      && (forall i :: 0 <= i < bodies.Length ==> |bodies[i]| == msg_size)
      && Lists() && cleared <= sending.Keys
      && forall slot :: slot in sending && sending[slot].filled && !sending[slot].urgent ==> slot in cleared
    }

    /** The link fields thread the queue and the free list, and end where a send has cleared them. */
    ghost predicate Lists()
      reads this`msg_queue_head, this`msg_queue_tail, this`msg_queue_free, this`entry, this`queue, this`freelist, this`cleared, next
    {
      && Chained(next[..], msg_queue_head, queue) && msg_queue_tail == LastOf(queue) && entry == |queue|
      && Chained(next[..], msg_queue_free, freelist)
      && forall slot :: slot in cleared ==> slot < next.Length && next[slot] == NIL
    }

    /** rt_mq_init over a pool of `pool_size` bytes: all its slots go to the free list, the last one first. */
    constructor (next: array<int>, bodies: array<Message>, msg_size: nat, pool_size: nat, flag: Flag)
      requires next.Length == bodies.Length == MaxMsgs(msg_size, pool_size)
      requires forall i :: 0 <= i < bodies.Length ==> |bodies[i]| == SlotSize(msg_size)
      modifies next
      ensures Valid() && State() == Init(SlotSize(msg_size), bodies[..])
      ensures this.next == next && this.bodies == bodies && this.msg_size == SlotSize(msg_size) && this.flag == flag
    {
      this.next, this.bodies, this.flag := next, bodies, flag;
      var size := AlignUp(msg_size) % 0x10000;
      this.msg_size := size;
      var max_msgs := pool_size / (size + MSG_HEADER) % 0x10000;
      msg_queue_head, msg_queue_tail, entry := NIL, NIL, 0;
      msg_queue_free := NIL;
      suspend_thread, suspend_sender_thread, rready, sready := [], [], {}, {};
      queue, freelist, sending, receiving, cleared := [], Reverse(Iota(next.Length)), map[], {}, {};
      new;
      ThreadFree(max_msgs);
      RunKeepsInv(size, bodies[..], flag, []);
      assert State() == Init(size, bodies[..]);
    }

    /** The loop of rt_mq_init. */
    method ThreadFree(max_msgs: nat)
      requires next.Length == max_msgs && msg_queue_free == NIL
      modifies this`msg_queue_free, next
      ensures Chained(next[..], msg_queue_free, Reverse(Iota(max_msgs)))
    {
      for temp := 0 to max_msgs
        invariant Chained(next[..], msg_queue_free, Reverse(Iota(temp)))
        invariant forall i :: 0 <= i < |Reverse(Iota(temp))| ==> Reverse(Iota(temp))[i] < temp
      {
        ghost var q := Reverse(Iota(temp));
        ReverseSnoc(Iota(temp), temp);
        WriteOutside(next[..], msg_queue_free, q, temp, msg_queue_free);
        next[temp] := msg_queue_free;
        Push(next[..], msg_queue_free, q, temp);
        msg_queue_free := temp;
      }
    }

    /** Take the first slot off the free list. */
    method TakeFree(ghost job: Job) returns (slot: nat)
      requires Lists() && freelist != []
      modifies this`msg_queue_free, this`freelist, this`sending
      ensures Lists() && slot == old(freelist)[0] && freelist == old(freelist)[1..] && sending == old(sending)[slot := job]
    {
      Pop(next[..], msg_queue_free, freelist);
      slot := msg_queue_free;
      msg_queue_free := next[slot];
      freelist, sending := freelist[1..], sending[slot := job];
    }

    /** First section of rt_mq_send_wait. */
    method SendBegin(w: Waiter, message: Message, timeout: int) returns (r: BeginResult)
      requires Valid() && |message| > 0   // asserted by the source
      modifies this
      ensures Valid() && (State(), r) == MessageQueueSpec.SendBegin(old(State()), flag, w, message, timeout)
    {
      if |message| > msg_size {
        return Refused;
      }
      ghost var t := MessageQueueSpec.SendBegin(State(), flag, w, message, timeout).0;
      BeginKeepsPartition(State(), flag, w, message, timeout);
      sready := sready - {w.tid};
      if msg_queue_free == NIL {
        if timeout == 0 {
          assert State() == t;
          return Unavailable;
        }
        suspend_sender_thread := Enqueue(flag, suspend_sender_thread, w);
        assert State() == t;
        return Parked;
      }
      var slot := TakeFree(Job(w.tid, message, false, false));
      assert State() == t;
      return Slot(slot);
    }

    /** First section of rt_mq_urgent. */
    method UrgentBegin(message: Message, ghost tid: nat) returns (r: BeginResult)
      requires Valid() && |message| > 0   // asserted by the source
      modifies this
      ensures Valid() && (State(), r) == MessageQueueSpec.UrgentBegin(old(State()), tid, message)
    {
      if |message| > msg_size {
        return Refused;
      }
      if msg_queue_free == NIL {
        return Unavailable;
      }
      ghost var t := MessageQueueSpec.UrgentBegin(State(), tid, message).0;
      BeginKeepsPartition(State(), flag, Waiter(tid, 0), message, 0);
      var slot := TakeFree(Job(tid, message, true, false));
      assert State() == t;
      return Slot(slot);
    }

    /** Between the sections, with interrupts enabled: clear the link (normal sends only), copy the message. */
    method Fill(slot: nat, message: Message, urgent: bool, ghost tid: nat)
      requires Valid() && slot in sending && sending[slot] == Job(tid, message, urgent, false)
      requires |message| <= msg_size   // checked in the first section
      modifies this`sending, this`cleared, next, bodies
      ensures Valid() && slot < |old(State()).body| && State() == MessageQueueSpec.Fill(old(State()), slot)
    {
      ghost var s := State();
      StepKeepsPartition(s, flag, Fills(tid, slot));
      QueueHasRoom(s, slot);
      if !urgent {
        WriteOutside(next[..], msg_queue_head, queue, slot, NIL);
        WriteOutside(next[..], msg_queue_free, freelist, slot, NIL);
        next[slot] := NIL;
        cleared := cleared + {slot};
      }
      CopyMessage(bodies, slot, message);
      sending := sending[slot := Job(tid, message, urgent, true)];
      assert State() == Step(s, flag, Fills(tid, slot));
    }

    /** The pointer half of linking `slot` as the new tail. */
    method LinkTail(slot: nat)
      requires Lists() && slot in cleared && slot !in queue && slot !in freelist && |queue| < ENTRY_MAX
      requires forall i, j :: 0 <= i < j < |queue| ==> queue[i] != queue[j]
      requires queue != [] ==> var last := queue[|queue| - 1]; last !in freelist && last !in cleared
      modifies this`msg_queue_head, this`msg_queue_tail, this`entry, this`queue, this`cleared, next
      ensures Lists() && queue == old(queue) + [slot] && cleared == old(cleared) - {slot}
    {
      if msg_queue_tail != NIL {
        Append(next[..], msg_queue_head, queue, slot);
        WriteOutside(next[..], msg_queue_free, freelist, queue[|queue| - 1], slot);
        next[msg_queue_tail] := slot;
      } else {
        Push(next[..], NIL, [], slot);
        assert queue + [slot] == [slot] + [];
      }
      msg_queue_tail := slot;
      if msg_queue_head == NIL {
        msg_queue_head := slot;
      }
      if entry < ENTRY_MAX {
        entry := entry + 1;
      } else {
        assert false;   // the overflow exit: the queue has room for the slot
      }
      queue, cleared := queue + [slot], cleared - {slot};
    }

    /** The pointer half of linking `slot` as the new head. */
    method LinkHead(slot: nat)
      requires Lists() && slot < next.Length && slot !in queue && slot !in freelist && |queue| < ENTRY_MAX
      modifies this`msg_queue_head, this`msg_queue_tail, this`entry, this`queue, this`cleared, next
      ensures Lists() && queue == [slot] + old(queue) && cleared == old(cleared) - {slot}
    {
      WriteOutside(next[..], msg_queue_head, queue, slot, msg_queue_head);
      WriteOutside(next[..], msg_queue_free, freelist, slot, msg_queue_head);
      next[slot] := msg_queue_head;
      Push(next[..], msg_queue_head, queue, slot);
      msg_queue_head := slot;
      if msg_queue_tail == NIL {
        msg_queue_tail := slot;
      }
      if entry < ENTRY_MAX {
        entry := entry + 1;
      } else {
        assert false;   // the overflow exit: the queue has room for the slot
      }
      queue, cleared := [slot] + queue, cleared - {slot};
    }

    /** _ipc_list_resume of the first receiver, if any. */
    method WakeReceiver()
      modifies this`suspend_thread, this`rready
      ensures Lot(suspend_thread, rready) == Wake(old(Lot(suspend_thread, rready)))
    {
      if suspend_thread != [] {
        rready := rready + {suspend_thread[0].tid};
        suspend_thread := suspend_thread[1..];
      }
    }

    method WakeSender()
      modifies this`suspend_sender_thread, this`sready
      ensures Lot(suspend_sender_thread, sready) == Wake(old(Lot(suspend_sender_thread, sready)))
    {
      if suspend_sender_thread != [] {
        sready := sready + {suspend_sender_thread[0].tid};
        suspend_sender_thread := suspend_sender_thread[1..];
      }
    }

    /** Second section of rt_mq_send_wait. */
    method SendLink(slot: nat, ghost tid: nat)
      requires Valid() && Owns(State(), tid, slot, false, true)
      modifies this, next
      ensures Valid() && State() == MessageQueueSpec.SendLink(old(State()), slot)
    {
      ghost var s := State();
      StepKeepsPartition(s, flag, SendsLink(tid, slot));
      QueueHasRoom(s, slot);
      if queue != [] { QueuedElsewhere(s, queue[|queue| - 1]); }
      LinkTail(slot);
      sending := sending - {slot};
      WakeReceiver();
      assert State() == Step(s, flag, SendsLink(tid, slot));
    }

    /** Second section of rt_mq_urgent. */
    method UrgentLink(slot: nat, ghost tid: nat)
      requires Valid() && Owns(State(), tid, slot, true, true)
      modifies this, next
      ensures Valid() && State() == MessageQueueSpec.UrgentLink(old(State()), slot)
    {
      ghost var s := State();
      StepKeepsPartition(s, flag, UrgentsLink(tid, slot));
      QueueHasRoom(s, slot);
      LinkHead(slot);
      sending := sending - {slot};
      WakeReceiver();
      assert State() == Step(s, flag, UrgentsLink(tid, slot));
    }

    /** First section of rt_mq_recv. */
    method RecvBegin(w: Waiter, timeout: int) returns (r: BeginResult)
      requires Valid()
      modifies this
      ensures Valid() && (State(), r) == MessageQueueSpec.RecvBegin(old(State()), flag, w, timeout)
    {
      ghost var s := State();
      ghost var t := MessageQueueSpec.RecvBegin(s, flag, w, timeout).0;
      BeginKeepsPartition(s, flag, w, [], timeout);
      rready := rready - {w.tid};
      if entry == 0 {
        if timeout == 0 {
          assert State() == t;
          return Unavailable;
        }
        suspend_thread := Enqueue(flag, suspend_thread, w);
        assert State() == t;
        return Parked;
      }
      TailIsHead(s);
      var slot := UnlinkHead();
      receiving := receiving + {slot};
      assert State() == t;
      return Slot(slot);
    }

    /** The pointer half of taking the first message off the queue. */
    method UnlinkHead() returns (slot: nat)
      requires Lists() && queue != [] && (queue[|queue| - 1] == queue[0] <==> |queue| == 1)
      modifies this`msg_queue_head, this`msg_queue_tail, this`entry, this`queue
      ensures Lists() && slot == old(queue)[0] < next.Length && queue == old(queue)[1..]
    {
      Pop(next[..], msg_queue_head, queue);
      slot := msg_queue_head;
      msg_queue_head := next[slot];
      if msg_queue_tail == slot {
        msg_queue_tail := NIL;
      }
      if entry > 0 {
        entry := entry - 1;
      }
      queue := queue[1..];
    }

    /** Between the sections: copy the message out; a receiver's buffer of `size` bytes gets at most msg_size of them. */
    method CopyOut(slot: nat, size: nat) returns (message: Message)
      requires Valid() && slot in receiving
      ensures slot < |State().body| && message == Copied(State().body[slot], size)
    {
      QueueHasRoom(State(), slot);
      message := bodies[slot][..if size > msg_size then msg_size else size];
    }

    /** The pointer half of putting `slot` at the front of the free list. */
    method GiveFree(slot: nat)
      requires Lists() && slot < next.Length && slot !in queue && slot !in freelist && slot !in cleared
      modifies this`msg_queue_free, this`freelist, next
      ensures Lists() && freelist == [slot] + old(freelist)
    {
      WriteOutside(next[..], msg_queue_head, queue, slot, msg_queue_free);
      WriteOutside(next[..], msg_queue_free, freelist, slot, msg_queue_free);
      next[slot] := msg_queue_free;
      Push(next[..], msg_queue_free, freelist, slot);
      msg_queue_free := slot;
      freelist := [slot] + freelist;
    }

    /** Second section of rt_mq_recv. */
    method RecvEnd(slot: nat)
      requires Valid() && slot in receiving
      modifies this, next
      ensures Valid() && State() == MessageQueueSpec.RecvEnd(old(State()), slot)
    {
      ghost var s := State();
      StepKeepsPartition(s, flag, RecvsEnd(slot));
      QueueHasRoom(s, slot);
      GiveFree(slot);
      receiving := receiving - {slot};
      WakeSender();
      assert State() == Step(s, flag, RecvsEnd(slot));
    }

    /** The loop of a reset: the queued slots go to the free list one by one. */
    method ReleaseAll()
      requires Lists() && forall i, j :: 0 <= i < j < |queue| ==> queue[i] != queue[j]
      requires forall i :: 0 <= i < |queue| ==> queue[i] !in freelist && queue[i] !in cleared
      modifies this`msg_queue_head, this`msg_queue_tail, this`msg_queue_free, this`entry, this`queue, this`freelist, next
      ensures Lists() && queue == [] && freelist == Reverse(old(queue)) + old(freelist)
    {
      while msg_queue_head != NIL
        invariant Lists()
        invariant Reverse(queue) + freelist == Reverse(old(queue)) + old(freelist)
        invariant forall i, j :: 0 <= i < j < |queue| ==> queue[i] != queue[j]
        invariant forall i :: 0 <= i < |queue| ==> queue[i] !in freelist && queue[i] !in cleared
        decreases |queue|
      {
        var slot := UnlinkHead();
        GiveFree(slot);
      }
      entry := 0;
    }

    /** rt_mq_control with RT_IPC_CMD_RESET. */
    method Reset()
      requires Valid()
      modifies this, next
      ensures Valid() && State() == MessageQueueSpec.Reset(old(State()))
    {
      ghost var s := State();
      StepKeepsPartition(s, flag, Resets);
      suspend_thread, suspend_sender_thread := [], [];
      QueueApart(s);
      ReleaseAll();
      assert State() == Step(s, flag, Resets);
    }
  }

  lemma {:induction false} ReverseSnoc(q: seq<nat>, x: nat)
    ensures Reverse(q + [x]) == [x] + Reverse(q)
  {
    if q == [] {
      assert Reverse([x]) == Reverse([]) + [x];
    } else {
      assert (q + [x])[1..] == q[1..] + [x];
      ReverseSnoc(q[1..], x);
    }
  }

  /** rt_memcpy of the message behind the header of `slot`. */
  method CopyMessage(bodies: array<Message>, slot: nat, message: Message)
    requires slot < bodies.Length && |message| <= |bodies[slot]|
    modifies bodies
    ensures bodies[..] == old(bodies[..])[slot := Filled(old(bodies[slot]), message)]
  {
    ghost var b, before := bodies[slot], bodies[..];
    ghost var part := b;
    for i := 0 to |message|
      invariant part == message[..i] + b[i..] && bodies[..] == before[slot := part]
    {
      assert bodies[..][slot] == part;
      part := part[i := message[i]];
      bodies[slot] := bodies[slot][i := message[i]];
    }
    assert part == Filled(b, message);
  }
}
