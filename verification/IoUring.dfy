/** The io_uring task itself: the loop's slot lists, buffer arrays and queue, updated in place. */
module IoUring {
  import opened Words
  import opened Wrappers
  import opened IoUringSlots

  /** How a round of pushes ended: with the loop still running, or with an error that ends it. */
  datatype Pushed = Continues | Ends

  /**
   A buffer is known by a number. What the kernel was given, what arrived and what became of it are
   kept for the specification only.
   */
  class Task {
    const n: nat
    const ringSize: nat
    const capacity: nat
    var txSlots: seq<nat>
    var rxSlots: seq<nat>
    const txBufs: array<Option<nat>>
    const rxBufs: array<nat>
    const rxSenders: array<bool>
    var txQueue: seq<nat>
    var closed: bool
    var nextBuf: nat
    var received: seq<nat>
    ghost var arrived: seq<nat>
    ghost var fates: seq<Fate>
    ghost var txGiven: map<nat, nat>
    ghost var rxGiven: map<nat, nat>

    ghost function TxMeaning(): TxSide
      reads this`txSlots, this`txQueue, this`closed, this`arrived, this`fates, this`txGiven, txBufs
    {
      TxSide(txSlots, txBufs[..], txGiven, txQueue, capacity, closed, arrived, fates)
    }

    ghost function RxMeaning(): RxSide
      reads this`rxSlots, this`rxGiven, this`nextBuf, this`received, rxBufs, rxSenders
    {
      RxSide(rxSlots, rxBufs[..], rxSenders[..], rxGiven, nextBuf, received)
    }

    ghost function Meaning(): State
      reads this, txBufs, rxBufs, rxSenders
    {
      State(TxMeaning(), RxMeaning())
    }

    ghost predicate ValidTx()
      reads this`txSlots, this`txQueue, this`closed, this`arrived, this`fates, this`txGiven, txBufs
    {
      TxInv(n, TxMeaning()) && TxInBounds(TxMeaning())
    }

    ghost predicate ValidRx()
      reads this`rxSlots, this`rxGiven, this`nextBuf, this`received, rxBufs, rxSenders
    {
      RxInv(n, RxMeaning()) && RxInBounds(RxMeaning())
    }

    ghost predicate Valid()
      reads this, txBufs, rxBufs, rxSenders
    {
      n == ringSize / 2 && n < 0x8000_0000_0000_0000 && rxBufs as object != txBufs && ValidTx() && ValidRx()
    }

    constructor (ringSize: nat, capacity: nat)
      requires ringSize / 2 < 0x8000_0000_0000_0000
      ensures Valid() && this.ringSize == ringSize && Meaning() == Setup(ringSize, capacity)
      ensures fresh(txBufs) && fresh(rxBufs) && fresh(rxSenders)
    {
      var half := ringSize / 2;
      this.ringSize, this.capacity, n := ringSize, capacity, half;
      txSlots, rxSlots := Numbers(half), [];
      txBufs := new Option<nat>[half](_ => None);
      rxBufs := new nat[half](i => i);
      rxSenders := new bool[half](_ => true);
      txQueue, received, closed, nextBuf := [], [], false, half;
      arrived, fates, txGiven := [], [], map[];
      rxGiven := map i | i in Numbers(half) :: i;
      new;
      SetupInv(ringSize, capacity);
      SetupIs(ringSize, capacity, Meaning());
    }

    /** A packet is offered to the channel; a full or abandoned one does not take it. */
    method Arrive(buf: nat) returns (accepted: bool)
      requires ValidTx()
      modifies this`txQueue, this`arrived
      ensures ValidTx() && TxMeaning() == Arrived(old(TxMeaning()), buf)
      ensures accepted <==> !closed && |old(txQueue)| < capacity
    {
      accepted := !closed && |txQueue| < capacity;
      if accepted {
        txQueue := txQueue + [buf];
        arrived := arrived + [buf];
      }
    }

    /** The sending end of the channel is dropped. */
    method HangUp()
      requires ValidTx()
      modifies this`closed
      ensures ValidTx() && TxMeaning() == old(TxMeaning()).(closed := true)
    {
      closed := true;
    }

    /** `pushed` is whether the submission queue had room. */
    method PushOneTxEvent(buf: nat, slot: nat, pushed: bool) returns (ok: bool)
      requires slot < txBufs.Length
      modifies txBufs
      ensures ok == pushed && txBufs[..] == if ok then old(txBufs[..])[slot := Some(buf)] else old(txBufs[..])
    {
      if !pushed {
        return false;
      }
      txBufs[slot] := Some(buf);
      return true;
    }

    /** A packet already taken from the queue goes into the last free slot, or is dropped and the slot kept. */
    method Transmit(buf: nat, pushed: bool)
      requires TxInBounds(TxMeaning()) && txSlots != []
      modifies this`txSlots, this`txGiven, this`fates, txBufs
      ensures TxMeaning() == Transmitted(old(TxMeaning()), buf, pushed)
    {
      var slot := txSlots[|txSlots| - 1];
      txSlots := txSlots[..|txSlots| - 1];
      var ok := PushOneTxEvent(buf, slot, pushed);
      if ok {
        txGiven, fates := txGiven[slot := buf], fates + [Submitted(buf)];
      } else {
        txSlots, fates := txSlots + [slot], fates + [Dropped(buf)];
      }
    }

    /** The waiting branch: with nothing queued and a slot free, a packet is received and pushed directly. */
    method ReceiveWhileWaiting(buf: nat, pushed: bool)
      requires ValidTx()
      modifies this`txSlots, this`txGiven, this`arrived, this`fates, txBufs
      ensures ValidTx() && TxMeaning() == ReceivedWhileWaiting(old(TxMeaning()), buf, pushed)
    {
      WaitingKeeps(n, TxMeaning(), buf, pushed);
      if txQueue == [] && !closed && txSlots != [] {
        arrived := arrived + [buf];
        Transmit(buf, pushed);
      }
    }

    /** The packet at the front of the queue is transmitted, or dropped when the push fails. */
    method TransmitNext(pushed: bool)
      requires ValidTx() && txSlots != [] && txQueue != []
      modifies this`txSlots, this`txQueue, this`txGiven, this`fates, txBufs
      ensures ValidTx() && TxMeaning() == TransmittedNext(old(TxMeaning()), pushed)
    {
      TransmittedNextKeeps(n, TxMeaning(), pushed);
      var buf := txQueue[0];
      txQueue := txQueue[1..];
      Transmit(buf, pushed);
    }

    /** Fills transmit slots while there are packets, slots and room; `room` answers each entry in turn. */
    method PushTxEvents(room: seq<Room>) returns (r: Pushed)
      requires ValidTx()
      modifies this`txSlots, this`txQueue, this`txGiven, this`fates, txBufs
      ensures ValidTx()
      ensures PushedTx(old(TxMeaning()), room) == if r == Continues then Running(TxMeaning()) else Ended(TxMeaning())
    {
      var i := 0;
      while txSlots != []
        invariant i <= |room| && ValidTx()
        invariant PushedTx(TxMeaning(), room[i..]) == PushedTx(old(TxMeaning()), room)
        decreases |txSlots|
      {
        if i == |room| || room[i].Busy? {
          return Continues;
        }
        if room[i].Broken? {
          return Ends;
        }
        if txQueue == [] {
          return if closed then Ends else Continues;
        }
        TransmitNext(room[i].Fits?);
        if room[i].Full? {
          return Continues;
        }
        assert room[i..][1..] == room[i + 1..];
        i := i + 1;
      }
      return Continues;
    }

    /** Resubmits the last idle receive slot with the buffer it holds. */
    method PushOneRxEvent()
      requires ValidRx() && rxSlots != []
      modifies this`rxSlots, this`rxGiven
      ensures ValidRx() && RxMeaning() == Resubmitted(old(RxMeaning()))
    {
      ResubmittedKeeps(n, RxMeaning());
      var slot := rxSlots[|rxSlots| - 1];
      rxSlots := rxSlots[..|rxSlots| - 1];
      rxGiven := rxGiven[slot := rxBufs[slot]];
    }

    /** Resubmits idle receive slots, each with the buffer it holds, until all are in flight or the queue balks. */
    method PushRxEvents(room: seq<Room>) returns (r: Pushed)
      requires ValidRx()
      modifies this`rxSlots, this`rxGiven
      ensures ValidRx()
      ensures PushedRx(old(RxMeaning()), room) == if r == Continues then Running(RxMeaning()) else Ended(RxMeaning())
    {
      for i := 0 to |room|
        invariant ValidRx() && PushedRx(RxMeaning(), room[i..]) == PushedRx(old(RxMeaning()), room)
      {
        if room[i].Busy? {
          return Continues;
        }
        if room[i].Broken? {
          return Ends;
        }
        if rxSlots == [] || room[i].Full? {
          return Continues;
        }
        PushOneRxEvent();
        assert room[i..][1..] == room[i + 1..];
      }
      return Continues;
    }

    /** The buffer goes out through the slot's place in the channel, and another place is asked for. */
    method PassOn(i: nat, reserved: bool)
      requires RxInBounds(RxMeaning()) && i < rxBufs.Length && rxSenders[i]
      modifies this`nextBuf, this`received, rxBufs, rxSenders
      ensures RxMeaning() == PassedOn(old(RxMeaning()), i, reserved)
    {
      var buf := rxBufs[i];
      rxBufs[i] := nextBuf;
      nextBuf := nextBuf + 1;
      rxSenders[i] := false;
      received := received + [buf];
      if reserved {
        rxSenders[i] := true;
      }
    }

    /** Bytes are passed on in the buffer the kernel filled, and the slot gets a new one. */
    method CompleteRx(i: nat, result: int, reserved: bool) returns (alive: bool)
      requires ValidRx() && i in rxGiven
      modifies this`rxSlots, this`rxGiven, this`nextBuf, this`received, rxBufs, rxSenders
      ensures alive ==> ValidRx()
      ensures CompletedRx(old(RxMeaning()), i, result, reserved)
           == if alive then Running(RxMeaning()) else Ended(RxMeaning())
    {
      CompletedRxKeeps(n, RxMeaning(), i, result, reserved);
      if result > 0 {
        assert rxSenders[i] == RxMeaning().senders[i];
        PassOn(i, reserved);
        if !reserved {
          return false;
        }
      }
      rxSlots, rxGiven := rxSlots + [i], rxGiven - {i};
      return true;
    }

    /** The buffer is let go of and the slot is free again. */
    method CompleteTx(i: nat)
      requires ValidTx() && i in txGiven
      modifies this`txSlots, this`txGiven, txBufs
      ensures ValidTx() && TxMeaning() == CompletedTx(old(TxMeaning()), i)
    {
      CompletedTxKeeps(n, TxMeaning(), i);
      txBufs[i] := None;
      txSlots, txGiven := txSlots + [i], txGiven - {i};
    }

    /** One completion. `reserved` is whether the channel gave out another place. */
    method Complete(userData: U64, result: int, reserved: bool) returns (alive: bool)
      requires Valid() && Holds(Meaning(), userData)
      modifies this`rxSlots, this`rxGiven, this`nextBuf, this`received, this`txSlots, this`txGiven
      modifies txBufs, rxBufs, rxSenders
      ensures alive ==> Valid()
      ensures Completed(old(Meaning()), userData, result, reserved)
           == if alive then Running(Meaning()) else Ended(Meaning())
    {
      var slot := FromUserData(userData);
      if slot.Rx? {
        alive := CompleteRx(slot.idx, result, reserved);
      } else {
        CompleteTx(slot.idx);
        alive := true;
      }
    }

    method Count() returns (count: nat)
      requires Valid()
      ensures count == InFlight(Meaning()) <= ringSize
    {
      InFlightBounded(n, Meaning());
      count := 2 * n - |txSlots| - |rxSlots|;
    }

    /** Whether the kernel holds an operation with this user data, read off the buffers and the idle list. */
    method IsOutstanding(userData: U64) returns (yes: bool)
      requires Valid()
      ensures yes <==> Holds(Meaning(), userData)
    {
      var slot := FromUserData(userData);
      if slot.idx >= n {
        return false;
      }
      if slot.Tx? {
        assert TxMeaning().bufs[slot.idx] == txBufs[slot.idx];
        return txBufs[slot.idx].Some?;
      }
      return slot.idx !in rxSlots;
    }

    method HandleCompletion(event: Event) returns (alive: bool, slots: seq<SlotIdx>)
      requires Valid() && event.Completes?
      modifies this`rxSlots, this`rxGiven, this`nextBuf, this`received, this`txSlots, this`txGiven
      modifies txBufs, rxBufs, rxSenders
      ensures alive ==> Valid()
      ensures Step(old(Meaning()), event) == if alive then Running(Meaning()) else Ended(Meaning())
      ensures slots == Decoded(Running(old(Meaning())), event)
    {
      var held := IsOutstanding(event.userData);
      if !held {
        return true, [];
      }
      slots := [FromUserData(event.userData)];
      alive := Complete(event.userData, event.result, event.reserved);
    }

    method HandleRx(event: Event) returns (alive: bool)
      requires Valid() && event.PushRx?
      modifies this`rxSlots, this`rxGiven
      ensures Valid()
      ensures Step(old(Meaning()), event) == if alive then Running(Meaning()) else Ended(Meaning())
    {
      var r := PushRxEvents(event.room);
      alive := r == Continues;
    }

    method HandleTx(event: Event) returns (alive: bool)
      requires Valid() && IsTx(event)
      modifies this`txSlots, this`txQueue, this`txGiven, this`fates, this`arrived, this`closed, txBufs
      ensures Valid()
      ensures Step(old(Meaning()), event) == if alive then Running(Meaning()) else Ended(Meaning())
    {
      alive := true;
      match event {
        case Arrives(buf) => var _ := Arrive(buf);
        case HangsUp => HangUp();
        case ArrivesWhileWaiting(buf, pushed) => ReceiveWhileWaiting(buf, pushed);
        case PushTx(room) =>
          var r := PushTxEvents(room);
          alive := r == Continues;
      }
    }

    /** One event, and the slot it decodes to if it is a completion of something the kernel holds. */
    method Handle(event: Event) returns (alive: bool, slots: seq<SlotIdx>)
      requires Valid()
      modifies this, txBufs, rxBufs, rxSenders
      ensures alive ==> Valid()
      ensures Step(old(Meaning()), event) == if alive then Running(Meaning()) else Ended(Meaning())
      ensures slots == Decoded(Running(old(Meaning())), event)
    {
      if event.Completes? {
        alive, slots := HandleCompletion(event);
      } else if event.PushRx? {
        slots := [];
        alive := HandleRx(event);
      } else {
        slots := [];
        alive := HandleTx(event);
      }
    }
  }

  // ---- whole runs ----

  /**
   The task put through any events in any order ends up where the step system says. `outstanding` is the
   number of operations in flight after each event until the loop ends, never more than the ring has
   room for, and `slots` are what the completions decoded to, all in bounds.
   */
  method RunLoop(ringSize: nat, capacity: nat, events: seq<Event>)
    returns (task: Task, alive: bool, outstanding: seq<nat>, slots: seq<SlotIdx>)
    requires ringSize / 2 < 0x8000_0000_0000_0000
    ensures var trace := Trace(ringSize, capacity, events);
      && trace[|events|] == (if alive then Running(task.Meaning()) else Ended(task.Meaning()))
      && slots == AllDecoded(events, trace, |events|) && AllBelow(slots, ringSize / 2)
      && Counted(events, trace, outstanding, ringSize) && (alive <==> |outstanding| == |events|)
  {
    ghost var trace := Trace(ringSize, capacity, events);
    CompletionsInBounds(ringSize, capacity, events, trace, |events|);
    task, alive, outstanding, slots := RunTrace(ringSize, capacity, events, trace);
  }

  method RunTrace(ringSize: nat, capacity: nat, events: seq<Event>, ghost trace: seq<Loop<State>>)
    returns (task: Task, alive: bool, outstanding: seq<nat>, slots: seq<SlotIdx>)
    requires ringSize / 2 < 0x8000_0000_0000_0000 && IsTrace(ringSize, capacity, events, trace)
    ensures trace[|events|] == if alive then Running(task.Meaning()) else Ended(task.Meaning())
    ensures slots == AllDecoded(events, trace, |events|)
    ensures Counted(events, trace, outstanding, ringSize) && (alive <==> |outstanding| == |events|)
  {
    task := new Task(ringSize, capacity);
    alive, outstanding, slots := true, [], [];
    for i := 0 to |events|
      invariant fresh(task) && fresh(task.txBufs) && fresh(task.rxBufs) && fresh(task.rxSenders)
      invariant alive && task.Valid() && task.ringSize == ringSize
      invariant Recorded(events, trace, i, task.Meaning(), outstanding, slots, ringSize)
    {
      ghost var before := task.Meaning();
      var decoded;
      alive, decoded := task.Handle(events[i]);
      if !alive {
        RecordEnds(ringSize, capacity, events, trace, i, before, task.Meaning(), outstanding, slots, ringSize);
        slots := slots + decoded;
        return;
      }
      var count := task.Count();
      assert Goes(events, trace, i);
      RecordGrows(events, trace, i, before, task.Meaning(), outstanding, slots, ringSize);
      outstanding, slots := outstanding + [count], slots + decoded;
    }
  }
}
