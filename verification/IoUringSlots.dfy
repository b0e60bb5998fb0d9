/**
 The io_uring loop as a step system: which slots are free, which are with the kernel, and which
 buffer each side of a slot in flight knows.
 */
module IoUringSlots {
  import opened Words
  import opened Wrappers

  // ---- slot numbers as user data ----

  datatype SlotIdx = Tx(idx: nat) | Rx(idx: nat)

  /** Receive slots are complemented, so that the sign tells the two kinds apart. */
  function UserData(s: SlotIdx): U64
    requires s.idx < 0x8000_0000_0000_0000
  {
    match s
    case Tx(i) => i
    case Rx(i) => 0xFFFF_FFFF_FFFF_FFFF - i
  }

  function FromUserData(u: U64): (s: SlotIdx)
    ensures s.idx < 0x8000_0000_0000_0000
  {
    if u >= 0x8000_0000_0000_0000 then Rx(0xFFFF_FFFF_FFFF_FFFF - u) else Tx(u)
  }

  /** User data as the signed number it stands for. */
  function Signed(u: U64): int {
    if u >= 0x8000_0000_0000_0000 then u - 0x1_0000_0000_0000_0000 else u
  }

  /** As a signed number a transmit slot is its index and a receive slot the complement of its index. */
  lemma UserDataIsSigned(i: nat)
    requires i < 0x8000_0000_0000_0000
    ensures Signed(UserData(Tx(i))) == i && Signed(UserData(Rx(i))) == -(i as int) - 1
  {}

  /** The two conversions are inverse to each other, both ways. */
  lemma UserDataRoundTrip(s: SlotIdx, u: U64)
    requires s.idx < 0x8000_0000_0000_0000
    ensures FromUserData(UserData(s)) == s
    ensures UserData(FromUserData(u)) == u
  {}

  // ---- the state ----

  /** What the submission queue says to one more entry: there is room, the push fails, it is busy, or broken. */
  datatype Room = Fits | Full | Busy | Broken

  /** What became of a packet taken from the queue. */
  datatype Fate = Submitted(buf: nat) | Dropped(buf: nat)

  /**
   The transmit side: free slots, the buffer each slot owns, the buffer the kernel was given for each
   slot in flight, the packet queue, and every packet that arrived and what became of it, in order.
   */
  datatype TxSide = TxSide(
    slots: seq<nat>,
    bufs: seq<Option<nat>>,
    given: map<nat, nat>,
    queue: seq<nat>,
    capacity: nat,
    closed: bool,
    arrived: seq<nat>,
    fates: seq<Fate>)

  /**
   The receive side: idle slots, the buffer and the reserved channel place of each slot, the buffer the
   kernel was given for each slot in flight, the number of the next new buffer, and what was passed on.
   */
  datatype RxSide = RxSide(
    slots: seq<nat>,
    bufs: seq<nat>,
    senders: seq<bool>,
    given: map<nat, nat>,
    nextBuf: nat,
    received: seq<nat>)

  datatype State = State(tx: TxSide, rx: RxSide)

  /** The loop goes on, has returned an error, or has panicked. */
  datatype Loop<S> = Running(s: S) | Ended(s: S) | Panicked(s: S)

  /** Slot numbers are in bounds, which is what every unchecked access relies on. */
  predicate TxInBounds(t: TxSide) {
    && (forall k :: 0 <= k < |t.slots| ==> t.slots[k] < |t.bufs|)
    && (forall i :: i in t.given ==> i < |t.bufs|)
  }

  predicate RxInBounds(r: RxSide) {
    && |r.senders| == |r.bufs|
    && (forall k :: 0 <= k < |r.slots| ==> r.slots[k] < |r.bufs|)
    && (forall i :: i in r.given ==> i < |r.bufs|)
  }

  predicate InBounds(s: State) {
    TxInBounds(s.tx) && RxInBounds(s.rx)
  }

  /** Whether the kernel holds an operation with this user data. */
  predicate Holds(s: State, u: U64) {
    match FromUserData(u)
    case Tx(i) => i in s.tx.given
    case Rx(i) => i in s.rx.given
  }

  function InFlight(s: State): nat {
    |s.tx.given| + |s.rx.given|
  }

  // ---- transmitting ----

  /** A packet is put into the channel, unless it is full or its sending end was dropped. */
  function Arrived(t: TxSide, buf: nat): TxSide {
    if t.closed || |t.queue| >= t.capacity then t else t.(queue := t.queue + [buf], arrived := t.arrived + [buf])
  }

  /** A packet goes into the last free slot, or is dropped and the slot kept. */
  function Transmitted(t: TxSide, buf: nat, pushed: bool): (t': TxSide)
    requires TxInBounds(t) && t.slots != []
    ensures TxInBounds(t')
  {
    var slot := t.slots[|t.slots| - 1];
    if !pushed then t.(fates := t.fates + [Dropped(buf)])
    else
      t.(slots := t.slots[..|t.slots| - 1], bufs := t.bufs[slot := Some(buf)], given := t.given[slot := buf],
         fates := t.fates + [Submitted(buf)])
  }

  function TransmittedNext(t: TxSide, pushed: bool): (t': TxSide)
    requires TxInBounds(t) && t.slots != [] && t.queue != []
    ensures TxInBounds(t')
  {
    Transmitted(t.(queue := t.queue[1..]), t.queue[0], pushed)
  }

  predicate MayReceiveWhileWaiting(t: TxSide) {
    t.queue == [] && !t.closed && t.slots != []
  }

  function ReceivedWhileWaiting(t: TxSide, buf: nat, pushed: bool): (t': TxSide)
    requires TxInBounds(t)
    ensures TxInBounds(t')
  {
    if MayReceiveWhileWaiting(t) then Transmitted(t.(arrived := t.arrived + [buf]), buf, pushed) else t
  }

  /** Filling transmit slots; `room` answers each entry in turn, and is busy when it has run out. */
  function PushedTx(t: TxSide, room: seq<Room>): (l: Loop<TxSide>)
    requires TxInBounds(t)
    ensures TxInBounds(l.s) && !l.Panicked?
    decreases |room|
  {
    if t.slots == [] || room == [] || room[0].Busy? then Running(t)
    else if room[0].Broken? then Ended(t)
    else if t.queue == [] then if t.closed then Ended(t) else Running(t)
    else if room[0].Full? then Running(TransmittedNext(t, false))
    else PushedTx(TransmittedNext(t, true), room[1..])
  }

  function CompletedTx(t: TxSide, i: nat): (t': TxSide)
    requires TxInBounds(t) && i in t.given
    ensures TxInBounds(t')
  {
    t.(bufs := t.bufs[i := None], slots := t.slots + [i], given := t.given - {i})
  }

  // ---- receiving ----

  /** The last idle slot goes to the kernel with the buffer it owns. */
  function Resubmitted(r: RxSide): (r': RxSide)
    requires RxInBounds(r) && r.slots != []
    ensures RxInBounds(r')
  {
    var slot := r.slots[|r.slots| - 1];
    r.(slots := r.slots[..|r.slots| - 1], given := r.given[slot := r.bufs[slot]])
  }

  function PushedRx(r: RxSide, room: seq<Room>): (l: Loop<RxSide>)
    requires RxInBounds(r)
    ensures RxInBounds(l.s) && !l.Panicked?
    decreases |room|
  {
    if room == [] || room[0].Busy? then Running(r)
    else if room[0].Broken? then Ended(r)
    else if r.slots == [] || room[0].Full? then Running(r)
    else PushedRx(Resubmitted(r), room[1..])
  }

  function Idle(r: RxSide, i: nat): (r': RxSide)
    requires RxInBounds(r) && i in r.given
    ensures RxInBounds(r')
  {
    r.(slots := r.slots + [i], given := r.given - {i})
  }

  /** The slot's buffer is passed on and replaced by a new one. */
  function PassedOn(r: RxSide, i: nat, reserved: bool): (r': RxSide)
    requires RxInBounds(r) && i < |r.bufs|
    ensures RxInBounds(r')
  {
    r.(bufs := r.bufs[i := r.nextBuf], senders := r.senders[i := reserved], nextBuf := r.nextBuf + 1,
       received := r.received + [r.bufs[i]])
  }

  /** `reserved` is whether the channel gave out another place. */
  function CompletedRx(r: RxSide, i: nat, result: int, reserved: bool): (l: Loop<RxSide>)
    requires RxInBounds(r) && i in r.given
    ensures RxInBounds(l.s)
  {
    if result <= 0 then Running(Idle(r, i))
    else if !r.senders[i] then Panicked(r)
    else if !reserved then Ended(PassedOn(r, i, false))
    else Running(Idle(PassedOn(r, i, true), i))
  }

  // ---- runs ----

  /** What happens to the loop next: the rest of the program, the kernel, and its own rounds, in any order. */
  datatype Event =
    | Arrives(buf: nat)
    | HangsUp
    | ArrivesWhileWaiting(buf: nat, pushed: bool)
    | PushTx(room: seq<Room>)
    | PushRx(room: seq<Room>)
    | Completes(userData: U64, result: int, reserved: bool)

  function WithTx(s: State, l: Loop<TxSide>): Loop<State> {
    match l
    case Running(t) => Running(s.(tx := t))
    case Ended(t) => Ended(s.(tx := t))
    case Panicked(t) => Panicked(s.(tx := t))
  }

  function WithRx(s: State, l: Loop<RxSide>): Loop<State> {
    match l
    case Running(r) => Running(s.(rx := r))
    case Ended(r) => Ended(s.(rx := r))
    case Panicked(r) => Panicked(s.(rx := r))
  }

  /** A completion of something the kernel holds. */
  function Completed(s: State, u: U64, result: int, reserved: bool): (l: Loop<State>)
    requires InBounds(s) && Holds(s, u)
    ensures InBounds(l.s)
  {
    match FromUserData(u)
    case Tx(i) => WithTx(s, Running(CompletedTx(s.tx, i)))
    case Rx(i) => WithRx(s, CompletedRx(s.rx, i, result, reserved))
  }

  /** An event that concerns the transmit side only. */
  predicate IsTx(e: Event) {
    !e.PushRx? && !e.Completes?
  }

  function TxStep(t: TxSide, e: Event): (l: Loop<TxSide>)
    requires TxInBounds(t) && IsTx(e)
    ensures TxInBounds(l.s)
  {
    match e
    case Arrives(buf) => Running(Arrived(t, buf))
    case HangsUp => Running(t.(closed := true))
    case ArrivesWhileWaiting(buf, pushed) => Running(ReceivedWhileWaiting(t, buf, pushed))
    case PushTx(room) => PushedTx(t, room)
  }

  /** One event. The kernel completes only what it holds. */
  function Step(s: State, e: Event): (l: Loop<State>)
    requires InBounds(s)
    ensures InBounds(l.s)
  {
    match e
    case PushRx(room) => WithRx(s, PushedRx(s.rx, room))
    case Completes(u, result, reserved) => if Holds(s, u) then Completed(s, u, result, reserved) else Running(s)
    case _ => WithTx(s, TxStep(s.tx, e))
  }

  function Numbers(n: nat): (xs: seq<nat>)
    ensures |xs| == n && forall i :: 0 <= i < n ==> xs[i] == i
  {
    seq(n, i => i)
  }

  /** Setup: every receive slot is submitted at once, every transmit slot is free. */
  function Setup(ringSize: nat, capacity: nat): (s: State)
    ensures InBounds(s)
  {
    var n := ringSize / 2;
    State(TxSide(Numbers(n), seq(n, _ => None), map[], [], capacity, false, [], []),
          RxSide([], Numbers(n), seq(n, _ => true), map i | i in Numbers(n) :: i, n, []))
  }

  function Advanced(l: Loop<State>, e: Event): (l': Loop<State>)
    requires InBounds(l.s)
    ensures InBounds(l'.s)
  {
    if l.Running? then Step(l.s, e) else l
  }

  /** From one event to the next. */
  predicate Goes(events: seq<Event>, trace: seq<Loop<State>>, k: nat)
    requires k < |events| == |trace| - 1
  {
    InBounds(trace[k].s) && trace[k + 1] == Advanced(trace[k], events[k])
  }

  /** Where the loop stands at the start and after each event. */
  ghost predicate IsTrace(ringSize: nat, capacity: nat, events: seq<Event>, trace: seq<Loop<State>>) {
    && |trace| == |events| + 1 && trace[0] == Running(Setup(ringSize, capacity))
    && forall k :: 0 <= k < |events| ==> Goes(events, trace, k)
  }

  /** Every list of events has its trace. */
  function Trace(ringSize: nat, capacity: nat, events: seq<Event>): (trace: seq<Loop<State>>)
    ensures IsTrace(ringSize, capacity, events, trace) && InBounds(trace[|events|].s)
  {
    if events == [] then [Running(Setup(ringSize, capacity))]
    else
      var n := |events| - 1;
      var before := Trace(ringSize, capacity, events[..n]);
      TraceExtends(ringSize, capacity, events, before);
      before + [Advanced(before[n], events[n])]
  }

  lemma TraceExtends(ringSize: nat, capacity: nat, events: seq<Event>, before: seq<Loop<State>>)
    requires events != [] && IsTrace(ringSize, capacity, events[..|events| - 1], before)
    requires InBounds(before[|events| - 1].s)
    ensures var n := |events| - 1; IsTrace(ringSize, capacity, events, before + [Advanced(before[n], events[n])])
  {
    var n := |events| - 1;
    var trace := before + [Advanced(before[n], events[n])];
    forall k | 0 <= k < |events| ensures Goes(events, trace, k) {
      if k < n {
        assert Goes(events[..n], before, k);
      }
    }
  }

  /** The slot a completion decodes to, if the kernel held it. */
  function Decoded(l: Loop<State>, e: Event): seq<SlotIdx> {
    if l.Running? && e.Completes? && Holds(l.s, e.userData) then [FromUserData(e.userData)] else []
  }

  /** The slots the completions among the first `k` events decode to, in order. */
  function AllDecoded(events: seq<Event>, trace: seq<Loop<State>>, k: nat): seq<SlotIdx>
    requires k <= |events| == |trace| - 1
  {
    if k == 0 then [] else AllDecoded(events, trace, k - 1) + Decoded(trace[k - 1], events[k - 1])
  }

  // ---- the invariant ----

  /** Every slot below `n` is on the free list once or in flight, never both and never neither. */
  ghost predicate Partition(free: seq<nat>, flying: set<nat>, n: nat) {
    && (forall i, j :: 0 <= i < j < |free| ==> free[i] != free[j])
    && (forall s :: s in free ==> s < n && s !in flying)
    && (forall s :: s in flying ==> s < n)
    && (forall s: nat :: s < n ==> s in free || s in flying)
  }

  /** A slot owns a buffer exactly while it is in flight, and it is the very buffer the kernel was given. */
  ghost predicate TxOwned(t: TxSide) {
    forall i :: 0 <= i < |t.bufs| ==> t.bufs[i] == if i in t.given then Some(t.given[i]) else None
  }

  function Packets(fates: seq<Fate>): seq<nat> {
    seq(|fates|, i requires 0 <= i < |fates| => fates[i].buf)
  }

  /** Packets leave the queue in the order they came, each once. */
  predicate InOrder(t: TxSide) {
    t.arrived == Packets(t.fates) + t.queue && |t.queue| <= t.capacity
  }

  ghost predicate TxInv(n: nat, t: TxSide) {
    |t.bufs| == n && Partition(t.slots, t.given.Keys, n) && TxOwned(t) && InOrder(t)
  }

  /** What the kernel writes into is what the slot owns. */
  ghost predicate RxOwned(r: RxSide) {
    forall i :: i in r.given ==> i < |r.bufs| && r.bufs[i] == r.given[i]
  }

  /** No buffer is owned by two slots, and none that was passed on comes back or is passed on again. */
  ghost predicate BuffersApart(r: RxSide) {
    && (forall i :: 0 <= i < |r.bufs| ==> r.bufs[i] < r.nextBuf && r.bufs[i] !in r.received)
    && (forall i, j :: 0 <= i < j < |r.bufs| ==> r.bufs[i] != r.bufs[j])
    && (forall i :: 0 <= i < |r.received| ==> r.received[i] < r.nextBuf)
    && (forall i, j :: 0 <= i < j < |r.received| ==> r.received[i] != r.received[j])
  }

  ghost predicate RxInv(n: nat, r: RxSide) {
    && |r.bufs| == |r.senders| == n && Partition(r.slots, r.given.Keys, n)
    && RxOwned(r) && BuffersApart(r) && forall i :: 0 <= i < n ==> r.senders[i]
  }

  ghost predicate Inv(n: nat, s: State) {
    TxInv(n, s.tx) && RxInv(n, s.rx)
  }

  lemma TakeLast(free: seq<nat>, flying: set<nat>, n: nat)
    requires Partition(free, flying, n) && free != []
    ensures Partition(free[..|free| - 1], flying + {free[|free| - 1]}, n)
  {
    var init, last := free[..|free| - 1], free[|free| - 1];
    assert free == init + [last];
    forall s | s in init ensures s < n && s !in flying + {last} {
      var i :| 0 <= i < |init| && init[i] == s;
      assert free[i] == s && s in free;
    }
  }

  lemma GiveBack(free: seq<nat>, flying: set<nat>, n: nat, s: nat)
    requires Partition(free, flying, n) && s in flying
    ensures Partition(free + [s], flying - {s}, n)
  {}

  lemma PacketsAppend(fates: seq<Fate>, f: Fate)
    ensures Packets(fates + [f]) == Packets(fates) + [f.buf]
  {}

  lemma TransmittedKeeps(n: nat, t: TxSide, buf: nat, pushed: bool, arrived: seq<nat>)
    requires |t.bufs| == n && Partition(t.slots, t.given.Keys, n) && TxOwned(t) && TxInBounds(t) && t.slots != []
    requires arrived == Packets(t.fates) + [buf] + t.queue && |t.queue| <= t.capacity && t.arrived == arrived
    ensures TxInv(n, Transmitted(t, buf, pushed))
  {
    TakeLast(t.slots, t.given.Keys, n);
    var slot := t.slots[|t.slots| - 1];
    assert t.given[slot := buf].Keys == t.given.Keys + {slot};
    PacketsAppend(t.fates, Submitted(buf));
    PacketsAppend(t.fates, Dropped(buf));
  }

  lemma TransmittedNextKeeps(n: nat, t: TxSide, pushed: bool)
    requires TxInv(n, t) && TxInBounds(t) && t.slots != [] && t.queue != []
    ensures TxInv(n, TransmittedNext(t, pushed))
  {
    assert t.queue == [t.queue[0]] + t.queue[1..];
    TransmittedKeeps(n, t.(queue := t.queue[1..]), t.queue[0], pushed, t.arrived);
  }

  lemma {:induction false} PushedTxKeeps(n: nat, t: TxSide, room: seq<Room>)
    requires TxInv(n, t) && TxInBounds(t)
    ensures TxInv(n, PushedTx(t, room).s)
    decreases |room|
  {
    if t.slots != [] && room != [] && t.queue != [] && (room[0].Full? || room[0].Fits?) {
      TransmittedNextKeeps(n, t, room[0].Fits?);
      if room[0].Fits? {
        PushedTxKeeps(n, TransmittedNext(t, true), room[1..]);
      }
    }
  }

  lemma WaitingKeeps(n: nat, t: TxSide, buf: nat, pushed: bool)
    requires TxInv(n, t) && TxInBounds(t)
    ensures TxInv(n, ReceivedWhileWaiting(t, buf, pushed))
  {
    if MayReceiveWhileWaiting(t) {
      TransmittedKeeps(n, t.(arrived := t.arrived + [buf]), buf, pushed, t.arrived + [buf]);
    }
  }

  lemma CompletedTxKeeps(n: nat, t: TxSide, i: nat)
    requires TxInv(n, t) && TxInBounds(t) && i in t.given
    ensures TxInv(n, CompletedTx(t, i))
  {
    GiveBack(t.slots, t.given.Keys, n, i);
    assert (t.given - {i}).Keys == t.given.Keys - {i};
  }

  lemma ResubmittedKeeps(n: nat, r: RxSide)
    requires RxInv(n, r) && RxInBounds(r) && r.slots != []
    ensures RxInv(n, Resubmitted(r))
  {
    TakeLast(r.slots, r.given.Keys, n);
    var slot := r.slots[|r.slots| - 1];
    assert Resubmitted(r).given.Keys == r.given.Keys + {slot};
  }

  lemma {:induction false} PushedRxKeeps(n: nat, r: RxSide, room: seq<Room>)
    requires RxInv(n, r) && RxInBounds(r)
    ensures RxInv(n, PushedRx(r, room).s)
    decreases |room|
  {
    if room != [] && room[0].Fits? && r.slots != [] {
      ResubmittedKeeps(n, r);
      PushedRxKeeps(n, Resubmitted(r), room[1..]);
    }
  }

  lemma IdleKeeps(n: nat, r: RxSide, i: nat)
    requires |r.bufs| == |r.senders| == n && RxInBounds(r) && i in r.given && Partition(r.slots, r.given.Keys, n)
    requires BuffersApart(r) && forall k :: 0 <= k < n ==> r.senders[k]
    requires forall k :: k in r.given && k != i ==> r.bufs[k] == r.given[k]
    ensures RxInv(n, Idle(r, i))
  {
    GiveBack(r.slots, r.given.Keys, n, i);
    assert Idle(r, i).given.Keys == r.given.Keys - {i};
  }

  /** A buffer passed on and replaced by a new one: still no buffer in two places. */
  lemma PassedOnApart(r: RxSide, i: nat, reserved: bool)
    requires BuffersApart(r) && RxInBounds(r) && i < |r.bufs|
    ensures BuffersApart(PassedOn(r, i, reserved))
  {}

  lemma CompletedRxKeeps(n: nat, r: RxSide, i: nat, result: int, reserved: bool)
    requires RxInv(n, r) && RxInBounds(r) && i in r.given
    ensures var l := CompletedRx(r, i, result, reserved);
      !l.Panicked? && (l.Running? ==> RxInv(n, l.s)) && (l.Ended? <==> result > 0 && !reserved)
  {
    if result > 0 {
      PassedOnApart(r, i, reserved);
      if reserved {
        IdleKeeps(n, PassedOn(r, i, true), i);
      }
    } else {
      IdleKeeps(n, r, i);
    }
  }

  lemma TxStepKeeps(n: nat, t: TxSide, e: Event)
    requires TxInv(n, t) && TxInBounds(t) && IsTx(e)
    ensures TxInv(n, TxStep(t, e).s) && !TxStep(t, e).Panicked?
  {
    match e
    case Arrives(buf) =>
    case HangsUp =>
    case ArrivesWhileWaiting(buf, pushed) => WaitingKeeps(n, t, buf, pushed);
    case PushTx(room) => PushedTxKeeps(n, t, room);
  }

  lemma StepKeeps(n: nat, s: State, e: Event)
    requires Inv(n, s) && InBounds(s)
    ensures !Step(s, e).Panicked? && (Step(s, e).Running? ==> Inv(n, Step(s, e).s))
  {
    match e
    case Arrives(_) => TxStepKeeps(n, s.tx, e);
    case HangsUp => TxStepKeeps(n, s.tx, e);
    case ArrivesWhileWaiting(_, _) => TxStepKeeps(n, s.tx, e);
    case PushTx(_) => TxStepKeeps(n, s.tx, e);
    case PushRx(room) => PushedRxKeeps(n, s.rx, room);
    case Completes(u, result, reserved) =>
      if Holds(s, u) {
        match FromUserData(u)
        case Tx(i) => CompletedTxKeeps(n, s.tx, i);
        case Rx(i) => CompletedRxKeeps(n, s.rx, i, result, reserved);
      }
  }

  lemma SetupInv(ringSize: nat, capacity: nat)
    ensures Inv(ringSize / 2, Setup(ringSize, capacity))
  {
    AllFree(ringSize / 2);
  }

  lemma AllFree(n: nat)
    ensures Partition(Numbers(n), {}, n) && Partition([], Elements(Numbers(n)), n)
  {
    forall i: nat | i < n ensures i in Numbers(n) {
      assert Numbers(n)[i] == i;
    }
  }

  lemma SetupIs(ringSize: nat, capacity: nat, s: State)
    requires |s.tx.bufs| == |s.rx.bufs| == |s.rx.senders| == ringSize / 2
    requires forall i :: 0 <= i < ringSize / 2 ==> s.tx.bufs[i] == None && s.rx.bufs[i] == i && s.rx.senders[i]
    requires var setup := Setup(ringSize, capacity);
      s == setup.(tx := setup.tx.(bufs := s.tx.bufs), rx := setup.rx.(bufs := s.rx.bufs, senders := s.rx.senders))
    ensures s == Setup(ringSize, capacity)
  {
    var setup := Setup(ringSize, capacity);
    assert s.tx.bufs == setup.tx.bufs && s.rx.bufs == setup.rx.bufs && s.rx.senders == setup.rx.senders;
  }

  /**
   In every run no slot is lost or doubled, each slot in flight owns the very buffer the kernel has,
   no receive buffer is in two places, packets are handled in order, and the loop never panics.
   */
  lemma {:induction false} RunKeeps(ringSize: nat, capacity: nat, events: seq<Event>, trace: seq<Loop<State>>, k: nat)
    requires IsTrace(ringSize, capacity, events, trace) && k <= |events|
    ensures !trace[k].Panicked? && InBounds(trace[k].s) && (trace[k].Running? ==> Inv(ringSize / 2, trace[k].s))
  {
    if k == 0 {
      SetupInv(ringSize, capacity);
    } else {
      RunKeeps(ringSize, capacity, events, trace, k - 1);
      assert Goes(events, trace, k - 1);
      if trace[k - 1].Running? {
        StepKeeps(ringSize / 2, trace[k - 1].s, events[k - 1]);
      }
    }
  }

  /** Once the loop has returned nothing happens any more. */
  lemma {:induction false} EndedStays(ringSize: nat, capacity: nat, events: seq<Event>, trace: seq<Loop<State>>, i: nat,
                                      j: nat)
    requires IsTrace(ringSize, capacity, events, trace) && i <= j <= |events| && !trace[i].Running?
    ensures trace[j] == trace[i] && AllDecoded(events, trace, j) == AllDecoded(events, trace, i)
    decreases j
  {
    if i < j {
      EndedStays(ringSize, capacity, events, trace, i, j - 1);
      assert Goes(events, trace, j - 1);
    }
  }

  // ---- at most so many operations, all in bounds ----

  lemma {:induction false} UpTo(n: nat, all: set<nat>)
    requires forall s: nat :: s in all <==> s < n
    ensures |all| == n
  {
    if n > 0 {
      UpTo(n - 1, all - {n - 1});
    } else {
      assert all == {};
    }
  }

  lemma {:induction false} DistinctSize(free: seq<nat>)
    requires forall i, j :: 0 <= i < j < |free| ==> free[i] != free[j]
    ensures |Elements(free)| == |free|
  {
    if free != [] {
      var init, last := free[..|free| - 1], free[|free| - 1];
      DistinctSize(init);
      assert free == init + [last] && last !in init;
      assert Elements(free) == Elements(init) + {last};
    }
  }

  /** So the two lists always add up: nothing leaks and nothing is handed out twice. */
  lemma PartitionSize(free: seq<nat>, flying: set<nat>, n: nat)
    requires Partition(free, flying, n)
    ensures |free| + |flying| == n
  {
    DistinctSize(free);
    var idle := Elements(free);
    assert idle !! flying && |idle + flying| == |idle| + |flying|;
    assert forall s: nat :: s in idle + flying <==> s < n;
    UpTo(n, idle + flying);
  }

  lemma GivenSize(given: map<nat, nat>)
    ensures |given| == |given.Keys|
  {}

  lemma InFlightBounded(n: nat, s: State)
    requires Inv(n, s)
    ensures InFlight(s) <= 2 * n && InFlight(s) == 2 * n - |s.tx.slots| - |s.rx.slots|
  {
    PartitionSize(s.tx.slots, s.tx.given.Keys, n);
    PartitionSize(s.rx.slots, s.rx.given.Keys, n);
    GivenSize(s.tx.given);
    GivenSize(s.rx.given);
  }

  /** At most `ringSize` operations are with the kernel at any point of any run. */
  lemma OutstandingBounded(ringSize: nat, capacity: nat, events: seq<Event>, trace: seq<Loop<State>>, k: nat)
    requires IsTrace(ringSize, capacity, events, trace) && k <= |events| && trace[k].Running?
    ensures InFlight(trace[k].s) <= ringSize
  {
    RunKeeps(ringSize, capacity, events, trace, k);
    InFlightBounded(ringSize / 2, trace[k].s);
  }

  /** The number of operations in flight after each of the first events, none above `most`. */
  ghost predicate Counted(events: seq<Event>, trace: seq<Loop<State>>, counts: seq<nat>, most: nat)
    requires |trace| == |events| + 1
  {
    |counts| <= |events| && forall i :: 0 <= i < |counts| ==> CountedAfter(trace[i + 1], counts[i], most)
  }

  predicate CountedAfter(l: Loop<State>, count: nat, most: nat) {
    l.Running? && count == InFlight(l.s) <= most
  }

  lemma CountedGrows(events: seq<Event>, trace: seq<Loop<State>>, counts: seq<nat>, count: nat, most: nat)
    requires |counts| < |events| == |trace| - 1 && Counted(events, trace, counts, most)
    requires CountedAfter(trace[|counts| + 1], count, most)
    ensures Counted(events, trace, counts + [count], most)
  {}

  /** A record of the first `k` events, all of which left the loop running. */
  ghost predicate Recorded(events: seq<Event>, trace: seq<Loop<State>>, k: nat, s: State, counts: seq<nat>,
                           slots: seq<SlotIdx>, most: nat)
    requires k <= |events| == |trace| - 1
  {
    && trace[k] == Running(s) && slots == AllDecoded(events, trace, k)
    && Counted(events, trace, counts, most) && |counts| == k
  }

  lemma RecordGrows(events: seq<Event>, trace: seq<Loop<State>>, k: nat, s: State, s': State, counts: seq<nat>,
                    slots: seq<SlotIdx>, most: nat)
    requires k < |events| == |trace| - 1 && Goes(events, trace, k) && Recorded(events, trace, k, s, counts, slots, most)
    requires InBounds(s) && Step(s, events[k]) == Running(s') && InFlight(s') <= most
    ensures Recorded(events, trace, k + 1, s', counts + [InFlight(s')], slots + Decoded(Running(s), events[k]), most)
  {
    assert trace[k + 1] == Running(s');
    CountedGrows(events, trace, counts, InFlight(s'), most);
  }

  lemma RecordEnds(ringSize: nat, capacity: nat, events: seq<Event>, trace: seq<Loop<State>>, k: nat, s: State,
                   s': State, counts: seq<nat>, slots: seq<SlotIdx>, most: nat)
    requires IsTrace(ringSize, capacity, events, trace) && k < |events|
    requires Recorded(events, trace, k, s, counts, slots, most) && InBounds(s) && Step(s, events[k]) == Ended(s')
    ensures trace[|events|] == Ended(s')
    ensures AllDecoded(events, trace, |events|) == slots + Decoded(Running(s), events[k])
  {
    assert Goes(events, trace, k);
    EndedStays(ringSize, capacity, events, trace, k + 1, |events|);
  }

  predicate AllBelow(slots: seq<SlotIdx>, n: nat) {
    forall i :: 0 <= i < |slots| ==> slots[i].idx < n
  }

  lemma DecodedInBounds(n: nat, l: Loop<State>, e: Event)
    requires l.Running? ==> Inv(n, l.s)
    ensures AllBelow(Decoded(l, e), n)
  {}

  lemma AllBelowAppend(a: seq<SlotIdx>, b: seq<SlotIdx>, n: nat)
    requires AllBelow(a, n) && AllBelow(b, n)
    ensures AllBelow(a + b, n)
  {}

  /** Every slot a completion decodes to, in any run, is in bounds. */
  lemma {:induction false} CompletionsInBounds(ringSize: nat, capacity: nat, events: seq<Event>,
                                               trace: seq<Loop<State>>, k: nat)
    requires IsTrace(ringSize, capacity, events, trace) && k <= |events|
    ensures AllBelow(AllDecoded(events, trace, k), ringSize / 2)
  {
    if k > 0 {
      CompletionsInBounds(ringSize, capacity, events, trace, k - 1);
      RunKeeps(ringSize, capacity, events, trace, k - 1);
      DecodedInBounds(ringSize / 2, trace[k - 1], events[k - 1]);
      AllBelowAppend(AllDecoded(events, trace, k - 1), Decoded(trace[k - 1], events[k - 1]), ringSize / 2);
    }
  }

  // ---- what a completion, and anything else, does to the operations in flight ----

  /** The buffer the kernel was given for an operation it holds, and the one the slot owns. */
  function Given(s: State, u: U64): nat
    requires Holds(s, u)
  {
    match FromUserData(u) case Tx(i) => s.tx.given[i] case Rx(i) => s.rx.given[i]
  }

  function Owned(s: State, u: U64): Option<nat>
    requires InBounds(s) && Holds(s, u)
  {
    match FromUserData(u) case Tx(i) => s.tx.bufs[i] case Rx(i) => Some(s.rx.bufs[i])
  }

  /** A completion takes exactly its own operation from the kernel. */
  lemma CompletionReturnsOne(s: State, u: U64, result: int, reserved: bool, v: U64)
    requires InBounds(s) && Holds(s, u)
    ensures var l := Step(s, Completes(u, result, reserved));
      l.Running? ==> (Holds(l.s, v) <==> Holds(s, v) && v != u)
  {
    UserDataRoundTrip(FromUserData(v), v);
    UserDataRoundTrip(FromUserData(u), u);
  }

  lemma TransmittedStays(n: nat, t: TxSide, buf: nat, pushed: bool, i: nat)
    requires Partition(t.slots, t.given.Keys, n) && TxInBounds(t) && t.slots != [] && i in t.given
    ensures var t' := Transmitted(t, buf, pushed); i in t'.given && t'.given[i] == t.given[i] && t'.bufs[i] == t.bufs[i]
  {
    assert t.slots[|t.slots| - 1] in t.slots;
  }

  lemma {:induction false} PushedTxStays(n: nat, t: TxSide, room: seq<Room>, i: nat)
    requires TxInv(n, t) && TxInBounds(t) && i in t.given
    ensures var t' := PushedTx(t, room).s; i in t'.given && t'.given[i] == t.given[i] && t'.bufs[i] == t.bufs[i]
    decreases |room|
  {
    if t.slots != [] && room != [] && t.queue != [] && (room[0].Full? || room[0].Fits?) {
      TransmittedStays(n, t.(queue := t.queue[1..]), t.queue[0], room[0].Fits?, i);
      TransmittedNextKeeps(n, t, room[0].Fits?);
      if room[0].Fits? {
        PushedTxStays(n, TransmittedNext(t, true), room[1..], i);
      }
    }
  }

  lemma {:induction false} PushedRxStays(n: nat, r: RxSide, room: seq<Room>, i: nat)
    requires RxInv(n, r) && RxInBounds(r) && i in r.given
    ensures var r' := PushedRx(r, room).s; i in r'.given && r'.given[i] == r.given[i] && r'.bufs == r.bufs
    decreases |room|
  {
    if room != [] && room[0].Fits? && r.slots != [] {
      assert r.slots[|r.slots| - 1] in r.slots;
      ResubmittedKeeps(n, r);
      PushedRxStays(n, Resubmitted(r), room[1..], i);
    }
  }

  /** The operation `u` is with the kernel, which has the buffer `buf` that its slot owns. */
  predicate With(s: State, u: U64, buf: nat) {
    InBounds(s) && Holds(s, u) && Given(s, u) == buf && Owned(s, u) == Some(buf)
  }

  /** No event but its completion touches an operation in flight or the buffer of its slot. */
  lemma StepStays(n: nat, s: State, e: Event, u: U64, buf: nat)
    requires Inv(n, s) && With(s, u, buf) && !(e.Completes? && e.userData == u) && Step(s, e).Running?
    ensures With(Step(s, e).s, u, buf)
  {
    var slot := FromUserData(u);
    match e
    case Arrives(_) =>
    case HangsUp =>
    case ArrivesWhileWaiting(b, pushed) =>
      if slot.Tx? && MayReceiveWhileWaiting(s.tx) {
        TransmittedStays(n, s.tx.(arrived := s.tx.arrived + [b]), b, pushed, slot.idx);
      }
    case PushTx(room) =>
      if slot.Tx? {
        PushedTxStays(n, s.tx, room, slot.idx);
      }
    case PushRx(room) =>
      if slot.Rx? {
        PushedRxStays(n, s.rx, room, slot.idx);
      }
    case Completes(v, result, reserved) =>
      if Holds(s, v) {
        OthersStay(s, v, result, reserved, u, buf);
      }
  }

  lemma OthersStay(s: State, v: U64, result: int, reserved: bool, u: U64, buf: nat)
    requires With(s, u, buf) && Holds(s, v) && u != v && Completed(s, v, result, reserved).Running?
    ensures With(Completed(s, v, result, reserved).s, u, buf)
  {
    UserDataRoundTrip(FromUserData(u), u);
    UserDataRoundTrip(FromUserData(v), v);
  }

  lemma HeldIsWith(n: nat, s: State, u: U64)
    requires Inv(n, s) && InBounds(s) && Holds(s, u)
    ensures With(s, u, Given(s, u))
  {}

  /**
   From its submission to its completion, in every run, the kernel's buffer of an operation is owned by
   its slot: never let go of, never replaced, never given to another slot.
   */
  lemma {:induction false} BufferStaysWhileInFlight(ringSize: nat, capacity: nat, events: seq<Event>,
                                                    trace: seq<Loop<State>>, i: nat, j: nat, u: U64)
    requires IsTrace(ringSize, capacity, events, trace) && i <= j <= |events| && trace[j].Running?
    requires Holds(trace[i].s, u)
    requires forall k :: i <= k < j ==> !(events[k].Completes? && events[k].userData == u)
    ensures With(trace[j].s, u, Given(trace[i].s, u))
    decreases j
  {
    RunKeeps(ringSize, capacity, events, trace, if i == j then j else j - 1);
    if i == j {
      HeldIsWith(ringSize / 2, trace[j].s, u);
    } else {
      assert Goes(events, trace, j - 1);
      BufferStaysWhileInFlight(ringSize, capacity, events, trace, i, j - 1, u);
      StepStays(ringSize / 2, trace[j - 1].s, events[j - 1], u, Given(trace[i].s, u));
    }
  }

  /** Bytes received are passed on in the buffer the kernel filled, and its slot then owns one never used before. */
  lemma PassesOnWhatWasFilled(n: nat, s: State, u: U64, result: int, reserved: bool)
    requires Inv(n, s) && InBounds(s) && Holds(s, u) && FromUserData(u).Rx? && result > 0
    ensures var i, r := FromUserData(u).idx, Step(s, Completes(u, result, reserved)).s.rx;
      && r.received == s.rx.received + [Given(s, u)]
      && r.bufs == s.rx.bufs[i := s.rx.nextBuf] && s.rx.nextBuf !in s.rx.bufs && s.rx.nextBuf !in r.received
  {
    HeldIsWith(n, s, u);
  }

  // ---- which packets arrive, and what becomes of them ----

  /**
   The event brings a packet: offered to a channel that is open and has room, or received directly while
   nothing is queued, the channel is open and a slot is free.
   */
  predicate Brings(t: TxSide, e: Event) {
    || (e.Arrives? && !t.closed && |t.queue| < t.capacity)
    || (e.ArrivesWhileWaiting? && !t.closed && t.queue == [] && t.slots != [])
  }

  function Brought(l: Loop<State>, e: Event): seq<nat> {
    if l.Running? && Brings(l.s.tx, e) then [e.buf] else []
  }

  /** The packets brought by the first `k` events, in order. */
  function AllBrought(events: seq<Event>, trace: seq<Loop<State>>, k: nat): seq<nat>
    requires k <= |events| == |trace| - 1
  {
    if k == 0 then [] else AllBrought(events, trace, k - 1) + Brought(trace[k - 1], events[k - 1])
  }

  /** The channel is closed by the event that drops its sending end, and by no other. */
  predicate Closes(l: Loop<State>, e: Event) {
    l.Running? && e.HangsUp?
  }

  lemma {:induction false} PushedTxArrives(t: TxSide, room: seq<Room>)
    requires TxInBounds(t)
    ensures var t' := PushedTx(t, room).s;
      t'.arrived == t.arrived && t'.closed == t.closed && t'.capacity == t.capacity
    decreases |room|
  {
    if t.slots != [] && room != [] && t.queue != [] && room[0].Fits? {
      PushedTxArrives(TransmittedNext(t, true), room[1..]);
    }
  }

  lemma StepBrings(s: State, e: Event)
    requires InBounds(s)
    ensures Step(s, e).s.tx.arrived == s.tx.arrived + Brought(Running(s), e)
    ensures Step(s, e).s.tx.closed <==> s.tx.closed || e.HangsUp?
    ensures Step(s, e).s.tx.capacity == s.tx.capacity
  {
    if e.PushTx? {
      PushedTxArrives(s.tx, e.room);
    }
  }

  /** In every run what has arrived is exactly what the events brought, and the channel is closed by hanging up only. */
  lemma {:induction false} ArrivedIsBrought(ringSize: nat, capacity: nat, events: seq<Event>,
                                            trace: seq<Loop<State>>, k: nat)
    requires IsTrace(ringSize, capacity, events, trace) && k <= |events|
    ensures var t := trace[k].s.tx;
      && t.arrived == AllBrought(events, trace, k) && t.capacity == capacity
      && (t.closed <==> exists i :: 0 <= i < k && Closes(trace[i], events[i]))
  {
    if k > 0 {
      ArrivedIsBrought(ringSize, capacity, events, trace, k - 1);
      assert Goes(events, trace, k - 1);
      if trace[k - 1].Running? {
        StepBrings(trace[k - 1].s, events[k - 1]);
        assert Closes(trace[k - 1], events[k - 1]) <==> events[k - 1].HangsUp?;
      }
    }
  }

  /** A packet that arrives is the last in the queue. */
  lemma ArrivalIsQueued(s: State, buf: nat)
    requires InBounds(s) && Brings(s.tx, Arrives(buf))
    ensures var t := s.tx.(queue := s.tx.queue + [buf], arrived := s.tx.arrived + [buf]);
      Step(s, Arrives(buf)) == Running(s.(tx := t))
  {}

  /** A packet received while waiting is in flight in the slot that was last free, or dropped. */
  lemma WaitingReceiveIsSent(n: nat, s: State, buf: nat, pushed: bool)
    requires Inv(n, s) && InBounds(s) && n < 0x8000_0000_0000_0000 && Brings(s.tx, ArrivesWhileWaiting(buf, pushed))
    ensures var slot := s.tx.slots[|s.tx.slots| - 1];
      var s' := Step(s, ArrivesWhileWaiting(buf, pushed)).s;
      && Step(s, ArrivesWhileWaiting(buf, pushed)).Running? && slot < n
      && (pushed ==> With(s', UserData(Tx(slot)), buf) && s'.tx.fates == s.tx.fates + [Submitted(buf)])
      && (!pushed ==> s'.tx.slots == s.tx.slots && s'.tx.fates == s.tx.fates + [Dropped(buf)])
  {
    var slot := s.tx.slots[|s.tx.slots| - 1];
    assert slot in s.tx.slots;
    UserDataRoundTrip(Tx(slot), 0);
  }

  /** The buffer a completed read has filled. */
  function Fills(l: Loop<State>, e: Event): seq<nat> {
    if l.Running? && e.Completes? && e.result > 0 && Holds(l.s, e.userData) && FromUserData(e.userData).Rx?
    then [Given(l.s, e.userData)] else []
  }

  function AllFilled(events: seq<Event>, trace: seq<Loop<State>>, k: nat): seq<nat>
    requires k <= |events| == |trace| - 1
  {
    if k == 0 then [] else AllFilled(events, trace, k - 1) + Fills(trace[k - 1], events[k - 1])
  }

  lemma {:induction false} PushedRxReceives(r: RxSide, room: seq<Room>)
    requires RxInBounds(r)
    ensures PushedRx(r, room).s.received == r.received
    decreases |room|
  {
    if room != [] && room[0].Fits? && r.slots != [] {
      PushedRxReceives(Resubmitted(r), room[1..]);
    }
  }

  lemma StepFills(n: nat, s: State, e: Event)
    requires Inv(n, s) && InBounds(s)
    ensures Step(s, e).s.rx.received == s.rx.received + Fills(Running(s), e)
  {
    if e.PushRx? {
      PushedRxReceives(s.rx, e.room);
    } else if e.Completes? && Holds(s, e.userData) && FromUserData(e.userData).Rx? {
      HeldIsWith(n, s, e.userData);
    }
  }

  /** In every run what is passed on is exactly the buffers of the reads that brought bytes, in order. */
  lemma {:induction false} ReceivedIsFilled(ringSize: nat, capacity: nat, events: seq<Event>,
                                            trace: seq<Loop<State>>, k: nat)
    requires IsTrace(ringSize, capacity, events, trace) && k <= |events|
    ensures trace[k].s.rx.received == AllFilled(events, trace, k)
  {
    if k > 0 {
      ReceivedIsFilled(ringSize, capacity, events, trace, k - 1);
      RunKeeps(ringSize, capacity, events, trace, k - 1);
      assert Goes(events, trace, k - 1);
      if trace[k - 1].Running? {
        StepFills(ringSize / 2, trace[k - 1].s, events[k - 1]);
      }
    }
  }

  /** At the start every read is out, with a buffer of its own, and every transmit slot is free. */
  lemma SetupIsReading(ringSize: nat, capacity: nat, i: nat)
    requires i < ringSize / 2 < 0x8000_0000_0000_0000
    ensures var s := Setup(ringSize, capacity);
      && With(s, UserData(Rx(i)), i) && i in s.tx.slots && !Holds(s, UserData(Tx(i))) && s.rx.slots == []
  {
    var s := Setup(ringSize, capacity);
    assert s.tx.slots[i] == i && Numbers(ringSize / 2)[i] == i;
    UserDataRoundTrip(Rx(i), 0);
    UserDataRoundTrip(Tx(i), 0);
  }

  // ---- what a round of pushes does ----

  /** How many entries in a row there is room for. */
  function Fitting(room: seq<Room>): nat {
    if room == [] || !room[0].Fits? then 0 else 1 + Fitting(room[1..])
  }

  function Least(a: nat, b: nat): nat {
    if a < b then a else b
  }

  function Answer(room: seq<Room>, k: nat): Room {
    if k < |room| then room[k] else Busy
  }

  /** The packets of a queue prefix in the slots popped for them, last slot first. */
  function Filled(given: map<nat, nat>, slots: seq<nat>, queue: seq<nat>, c: nat): map<nat, nat>
    requires c <= |slots| && c <= |queue|
    decreases c
  {
    if c == 0 then given else Filled(given, slots, queue, c - 1)[slots[|slots| - c] := queue[c - 1]]
  }

  function AllSubmitted(queue: seq<nat>): seq<Fate> {
    seq(|queue|, i requires 0 <= i < |queue| => Submitted(queue[i]))
  }

  lemma {:induction false} FilledShift(given: map<nat, nat>, slots: seq<nat>, queue: seq<nat>, c: nat)
    requires c < |slots| && c < |queue|
    ensures Filled(given[slots[|slots| - 1] := queue[0]], slots[..|slots| - 1], queue[1..], c)
         == Filled(given, slots, queue, c + 1)
    decreases c
  {
    if c > 0 {
      FilledShift(given, slots, queue, c - 1);
    }
  }

  /**
   A round of transmit pushes in closed form. As many packets go out as there are packets, free slots
   and room for, oldest first, each into the last free slot; then the first thing missing decides: with
   no slot left nothing more happens, a broken queue ends the loop, an empty packet queue that is closed
   ends it too, and a failed push drops one more packet.
   */
  ghost predicate TxRound(t: TxSide, room: seq<Room>, l: Loop<TxSide>) {
    var c := Least(Fitting(room), Least(|t.slots|, |t.queue|));
    TxRoundOf(t, l, c, Answer(room, c))
  }

  ghost predicate TxRoundOf(t: TxSide, l: Loop<TxSide>, c: nat, answer: Room)
    requires c <= |t.slots| && c <= |t.queue|
  {
    var stuck := c < |t.slots|;
    && l.s.slots == t.slots[..|t.slots| - c] && l.s.given == Filled(t.given, t.slots, t.queue, c)
    && (l.Ended? <==> stuck && (answer.Broken? || (!answer.Busy? && c == |t.queue| && t.closed)))
    && Handled(t, l.s, c, stuck && c < |t.queue| && answer.Full?)
    && l.s.arrived == t.arrived && l.s.closed == t.closed && l.s.capacity == t.capacity
  }

  /** The first `c` packets of the queue were submitted, and one more dropped or not. */
  ghost predicate Handled(t: TxSide, t': TxSide, c: nat, drops: bool)
    requires c + (if drops then 1 else 0) <= |t.queue|
  {
    if drops
    then t'.queue == t.queue[c + 1..] && t'.fates == t.fates + AllSubmitted(t.queue[..c]) + [Dropped(t.queue[c])]
    else t'.queue == t.queue[c..] && t'.fates == t.fates + AllSubmitted(t.queue[..c])
  }

  lemma {:induction false} PushedTxExactly(t: TxSide, room: seq<Room>)
    requires TxInBounds(t)
    ensures TxRound(t, room, PushedTx(t, room))
    decreases |room|
  {
    if t.slots != [] && room != [] && t.queue != [] && room[0].Fits? {
      PushedTxExactly(TransmittedNext(t, true), room[1..]);
      TxRoundStep(t, TransmittedNext(t, true), room, PushedTx(t, room));
    } else {
      NothingSubmitted(t, room);
    }
  }

  lemma NothingSubmitted(t: TxSide, room: seq<Room>)
    requires TxInBounds(t) && (t.slots == [] || room == [] || t.queue == [] || !room[0].Fits?)
    ensures TxRound(t, room, PushedTx(t, room))
  {
    assert Least(Fitting(room), Least(|t.slots|, |t.queue|)) == 0;
    if t.slots != [] && room != [] && t.queue != [] && room[0].Full? {
      assert Handled(t, TransmittedNext(t, false), 0, true);
    } else {
      assert Handled(t, t, 0, false);
    }
  }

  lemma TxRoundStep(t: TxSide, t': TxSide, room: seq<Room>, l: Loop<TxSide>)
    requires TxInBounds(t) && t.slots != [] && room != [] && t.queue != [] && room[0].Fits?
    requires t' == TransmittedNext(t, true) && TxRound(t', room[1..], l)
    ensures TxRound(t, room, l)
  {
    var c := Least(Fitting(room[1..]), Least(|t'.slots|, |t'.queue|));
    assert Least(Fitting(room), Least(|t.slots|, |t.queue|)) == c + 1;
    assert Answer(room, c + 1) == Answer(room[1..], c);
    TxRoundShift(t, t', l, c, Answer(room, c + 1));
  }

  lemma TxRoundShift(t: TxSide, t': TxSide, l: Loop<TxSide>, c: nat, answer: Room)
    requires TxInBounds(t) && t.slots != [] && t.queue != [] && t' == TransmittedNext(t, true)
    requires c <= |t'.slots| && c <= |t'.queue| && TxRoundOf(t', l, c, answer)
    ensures TxRoundOf(t, l, c + 1, answer)
  {
    FilledShift(t.given, t.slots, t.queue, c);
    HandledShift(t, t', l.s, c, c < |t'.slots| && c < |t'.queue| && answer.Full?);
    assert t'.slots[..|t'.slots| - c] == t.slots[..|t.slots| - (c + 1)];
  }

  lemma HandledShift(t: TxSide, t': TxSide, u: TxSide, c: nat, drops: bool)
    requires t.queue != [] && t'.queue == t.queue[1..] && t'.fates == t.fates + [Submitted(t.queue[0])]
    requires c + (if drops then 1 else 0) <= |t'.queue| && Handled(t', u, c, drops)
    ensures Handled(t, u, c + 1, drops)
  {
    SubmittedShift(t, c);
  }

  lemma SubmittedShift(t: TxSide, c: nat)
    requires c < |t.queue|
    ensures t.fates + [Submitted(t.queue[0])] + AllSubmitted(t.queue[1..][..c])
         == t.fates + AllSubmitted(t.queue[..c + 1])
  {}

  /** The idle slots popped by a round of receive pushes, each with its own buffer. */
  function Refilled(given: map<nat, nat>, slots: seq<nat>, bufs: seq<nat>, c: nat): map<nat, nat>
    requires c <= |slots| && forall k :: 0 <= k < |slots| ==> slots[k] < |bufs|
    decreases c
  {
    if c == 0 then given
    else Refilled(given, slots, bufs, c - 1)[slots[|slots| - c] := bufs[slots[|slots| - c]]]
  }

  lemma {:induction false} RefilledShift(given: map<nat, nat>, slots: seq<nat>, bufs: seq<nat>, c: nat)
    requires c < |slots| && forall k :: 0 <= k < |slots| ==> slots[k] < |bufs|
    ensures var last := slots[|slots| - 1];
      Refilled(given[last := bufs[last]], slots[..|slots| - 1], bufs, c) == Refilled(given, slots, bufs, c + 1)
    decreases c
  {
    if c > 0 {
      RefilledShift(given, slots, bufs, c - 1);
    }
  }

  /**
   A round of receive pushes in closed form: as many idle slots go out as there are and as there is room
   for, last first, each with the buffer it owns; only a broken queue ends the loop.
   */
  ghost predicate RxRound(r: RxSide, room: seq<Room>, l: Loop<RxSide>)
    requires RxInBounds(r)
  {
    var c := Least(Fitting(room), |r.slots|);
    RxRoundOf(r, l, c, Answer(room, c))
  }

  ghost predicate RxRoundOf(r: RxSide, l: Loop<RxSide>, c: nat, answer: Room)
    requires RxInBounds(r) && c <= |r.slots|
  {
    && l.s == r.(slots := r.slots[..|r.slots| - c], given := Refilled(r.given, r.slots, r.bufs, c))
    && (l.Ended? <==> answer.Broken?)
  }

  lemma {:induction false} PushedRxExactly(r: RxSide, room: seq<Room>)
    requires RxInBounds(r)
    ensures RxRound(r, room, PushedRx(r, room))
    decreases |room|
  {
    if room != [] && room[0].Fits? && r.slots != [] {
      PushedRxExactly(Resubmitted(r), room[1..]);
      RxRoundStep(r, Resubmitted(r), room, PushedRx(r, room));
    }
  }

  lemma RxRoundStep(r: RxSide, r': RxSide, room: seq<Room>, l: Loop<RxSide>)
    requires RxInBounds(r) && RxInBounds(r') && room != [] && room[0].Fits? && r.slots != []
    requires r' == Resubmitted(r) && RxRound(r', room[1..], l)
    ensures RxRound(r, room, l)
  {
    var c := Least(Fitting(room[1..]), |r'.slots|);
    assert Least(Fitting(room), |r.slots|) == c + 1 && Answer(room, c + 1) == Answer(room[1..], c);
    RxRoundShift(r, r', l, c, Answer(room, c + 1));
  }

  lemma RxRoundShift(r: RxSide, r': RxSide, l: Loop<RxSide>, c: nat, answer: Room)
    requires RxInBounds(r) && RxInBounds(r') && r.slots != [] && r' == Resubmitted(r)
    requires c <= |r'.slots| && RxRoundOf(r', l, c, answer)
    ensures RxRoundOf(r, l, c + 1, answer)
  {
    RefilledShift(r.given, r.slots, r.bufs, c);
    assert r'.slots[..|r'.slots| - c] == r.slots[..|r.slots| - (c + 1)];
  }
}
