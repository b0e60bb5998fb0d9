/**
 When the lane is in use: the state of an endpoint's lane, and whether a rotation is due, read off the
 events of a run.
 */
module LaneStates {
  import opened Wrappers
  import opened Aead
  import opened Histories
  import opened KeyExchange
  import opened KeyNetwork
  import opened KeyHandover
  import GraceKeys

  // ---- what an event does to the lane ----

  /** A frame is delivered that the network holds for this side. */
  predicate Delivers(s: System, step: Step) {
    step.Deliver? && step.c in At(s, step.atLeft).inbox
  }

  predicate KeysUsable(x: Node) {
    Usable(x.e.currentSelf) && Usable(x.e.currentPeer)
  }

  /** An acknowledgement of the latest request, or a usable key, that leaves an undegraded side with both keys. */
  predicate Activates(accepts: Key -> bool, s: System, s': System, step: Step) {
    var x := At(s, step.atLeft);
    && Delivers(s, step) && !x.e.state.Degraded?
    && (if step.c.ack then step.c.counter == x.e.configCounter else step.c.enabled && accepts(step.c.key))
    && KeysUsable(At(s', step.atLeft))
  }

  /** The sixth tick of a request that is still not acknowledged. */
  predicate GivesUp(s: System, step: Step) {
    var x := At(s, step.atLeft);
    step.Fire? && step.c in x.pending && GivesUpOn(x.e, step.c)
  }

  /** The peer says it has no key, a request is given up, or a side in use falls back. */
  predicate Deactivates(s: System, step: Step) {
    var x := At(s, step.atLeft);
    || (Delivers(s, step) && !x.e.state.Degraded? && !step.c.ack && !step.c.enabled)
    || GivesUp(s, step)
    || FallsBack(s, step)
  }

  predicate FallsBack(s: System, step: Step) {
    step.GoDegraded? && At(s, step.atLeft).e.state.Active? && KeysUsable(At(s, step.atLeft))
  }

  /** A step starts a rotation: the side's counter moves on without its falling back. */
  predicate Rotates(s: System, s': System, step: Step) {
    !step.GoDegraded? && At(s', step.atLeft).e.configCounter != At(s, step.atLeft).e.configCounter
  }

  /** The lane of an endpoint went from `e` to `e'` as this says. */
  predicate Moved(e: Endpoint, e': Endpoint, activates: bool, deactivates: bool, fallsBack: bool, wakes: bool) {
    && (e'.state.Active? <==> activates || (e.state.Active? && !deactivates))
    && (e'.state.Degraded? <==> e.state.Degraded? || fallsBack)
    && (e'.state.WaitingForClient? <==> e.state.WaitingForClient? && !wakes && !activates)
    && (e'.state.Disabled? <==> e.state.Disabled? && !deactivates && !activates)
  }

  predicate Stamps(e: Endpoint, e': Endpoint, rotates: bool, givesUp: bool) {
    e'.stamped <==> rotates || (e.stamped && !givesUp)
  }

  lemma RotateLane(accepts: Key -> bool, e: Endpoint, key: Key, elapsed: bool)
    ensures var e' := Rotate(accepts, e, key, elapsed).e;
      && Moved(e, e', false, false, false, false) && e'.currentSelf == e.currentSelf && e'.currentPeer == e.currentPeer
      && Stamps(e, e', e'.configCounter != e.configCounter, false)
  {}

  lemma AckLane(e: Endpoint, c: Config)
    ensures var e' := HandleAck(e, c);
      && Moved(e, e', !e.state.Degraded? && c.counter == e.configCounter && HasValidKeys(e'), false, false, false)
      && e'.stamped == e.stamped && e'.configCounter == e.configCounter
  {}

  lemma TakeUpLane(accepts: Key -> bool, e: Endpoint, c: Config)
    ensures var e' := if Processes(accepts, e, c) then TakeUp(e, c) else Ignore(e, c);
      && Moved(e, e', !e.state.Degraded? && c.enabled && accepts(c.key) && HasValidKeys(e'),
               !e.state.Degraded? && !c.enabled, false, true)
      && e'.stamped == e.stamped && e'.configCounter == e.configCounter
  {}

  lemma RequestLane(accepts: Key -> bool, e: Endpoint, c: Config, key: Key, elapsed: bool)
    ensures var e' := HandleRequest(accepts, e, c, key, elapsed).e;
      && Moved(e, e', !e.state.Degraded? && c.enabled && accepts(c.key) && HasValidKeys(e'),
               !e.state.Degraded? && !c.enabled, false, true)
      && Stamps(e, e', e'.configCounter != e.configCounter, false)
  {
    TakeUpLane(accepts, e, c);
    if Processes(accepts, e, c) {
      RotateLane(accepts, TakeUp(e, c), key, elapsed);
    }
  }

  predicate GivesUpOn(e: Endpoint, c: Config) {
    && c.counter == e.configCounter && e.retransmitCount >= 5
    && e.currentSelf != Some(c.key) && (e.currentSelf.None? ==> c.key != INVALID)
    && !e.state.Disabled? && !e.state.WaitingForClient? && !e.state.Degraded?
  }

  lemma TickLane(e: Endpoint, c: Config)
    ensures var e' := Tick(e, c).e;
      && Moved(e, e', false, GivesUpOn(e, c), false, false) && e'.configCounter == e.configCounter
      && Stamps(e, e', false, GivesUpOn(e, c))
  {}

  lemma DegradeLane(accepts: Key -> bool, e: Endpoint)
    ensures var e' := Degrade(accepts, e).e; Moved(e, e', false, true, true, true) && e'.stamped == e.stamped
  {}

  lemma LaneStep(accepts: Key -> bool, s: System, s': System, step: Step)
    requires s' == Next(accepts, s, step)
    ensures Moved(At(s, step.atLeft).e, At(s', step.atLeft).e, Activates(accepts, s, s', step), Deactivates(s, step),
                  FallsBack(s, step), Delivers(s, step) && !step.c.ack)
    ensures Stamps(At(s, step.atLeft).e, At(s', step.atLeft).e, Rotates(s, s', step), GivesUp(s, step))
  {
    var x := At(s, step.atLeft);
    match step
    case RotateKey(_, key, elapsed) => RotateLane(accepts, x.e, key, elapsed);
    case GoDegraded(_) =>
      if Ready(x.e) {
        DegradeLane(accepts, x.e);
      }
    case Deliver(_, _, _, _) => DeliverLane(accepts, s, s', step);
    case Fire(_, c) => TickLane(x.e, c);
  }

  lemma DeliverLane(accepts: Key -> bool, s: System, s': System, step: Step)
    requires s' == Next(accepts, s, step) && step.Deliver?
    ensures Moved(At(s, step.atLeft).e, At(s', step.atLeft).e, Activates(accepts, s, s', step), Deactivates(s, step),
                  false, Delivers(s, step) && !step.c.ack)
    ensures Stamps(At(s, step.atLeft).e, At(s', step.atLeft).e, Rotates(s, s', step), false)
  {
    var x := At(s, step.atLeft);
    if Delivers(s, step) {
      assert At(s', step.atLeft).e == HandleConfig(accepts, x.e, step.c, step.key, step.elapsed).e;
      if step.c.ack {
        AckLane(x.e, step.c);
      } else {
        RequestLane(accepts, x.e, step.c, step.key, step.elapsed);
      }
    }
  }

  lemma OtherLane(accepts: Key -> bool, s: System, step: Step)
    ensures At(Next(accepts, s, step), !step.atLeft).e == At(s, !step.atLeft).e
  {}

  // ---- over whole runs ----

  predicate Goes(accepts: Key -> bool, steps: seq<Step>, trace: seq<System>, k: nat)
    requires k < |steps| == |trace| - 1
  {
    trace[k + 1] == Next(accepts, trace[k], steps[k])
  }

  /** The systems a run goes through, from two new endpoints on. */
  ghost predicate IsTrace(accepts: Key -> bool, l: LaneState, r: LaneState, steps: seq<Step>, trace: seq<System>) {
    && |trace| == |steps| + 1 && trace[0] == System(Start(l), Start(r))
    && forall k :: 0 <= k < |steps| ==> Goes(accepts, steps, trace, k)
  }

  /** Every run has its trace, which ends where the run does. */
  lemma {:induction false} TraceOf(accepts: Key -> bool, l: LaneState, r: LaneState, steps: seq<Step>)
    returns (trace: seq<System>)
    ensures IsTrace(accepts, l, r, steps, trace) && trace[|steps|] == Exec(accepts, l, r, steps)
    decreases |steps|
  {
    if steps == [] {
      trace := [System(Start(l), Start(r))];
    } else {
      var n := |steps| - 1;
      var before := TraceOf(accepts, l, r, steps[..n]);
      trace := before + [Next(accepts, before[n], steps[n])];
      TraceGrows(accepts, steps, steps[..n], before, trace);
    }
  }

  lemma TraceGrows(accepts: Key -> bool, steps: seq<Step>, init: seq<Step>, before: seq<System>, trace: seq<System>)
    requires steps != [] && |before| == |steps| && init == steps[..|steps| - 1]
    requires forall k :: 0 <= k < |init| ==> Goes(accepts, init, before, k)
    requires trace == before + [Next(accepts, before[|steps| - 1], steps[|steps| - 1])]
    ensures forall k :: 0 <= k < |steps| ==> Goes(accepts, steps, trace, k)
  {
    var n := |steps| - 1;
    forall k | 0 <= k < |steps| ensures Goes(accepts, steps, trace, k) {
      if k < n {
        assert Goes(accepts, init, before, k);
      }
    }
  }

  predicate ActivatedAt(accepts: Key -> bool, steps: seq<Step>, trace: seq<System>, i: nat, atLeft: bool)
    requires i < |steps| == |trace| - 1
  {
    steps[i].atLeft == atLeft && Activates(accepts, trace[i], trace[i + 1], steps[i])
  }

  predicate DeactivatedAt(accepts: Key -> bool, steps: seq<Step>, trace: seq<System>, i: nat, atLeft: bool)
    requires i < |steps| == |trace| - 1
  {
    steps[i].atLeft == atLeft && Deactivates(trace[i], steps[i])
  }

  /** A request arrives, whatever becomes of it. */
  predicate WokenAt(accepts: Key -> bool, steps: seq<Step>, trace: seq<System>, i: nat, atLeft: bool)
    requires i < |steps| == |trace| - 1
  {
    && steps[i].atLeft == atLeft
    && ((Delivers(trace[i], steps[i]) && !steps[i].c.ack) || Activates(accepts, trace[i], trace[i + 1], steps[i]))
  }

  predicate FellBackAt(accepts: Key -> bool, steps: seq<Step>, trace: seq<System>, i: nat, atLeft: bool)
    requires i < |steps| == |trace| - 1
  {
    steps[i].atLeft == atLeft && FallsBack(trace[i], steps[i])
  }

  predicate RotatedAt(accepts: Key -> bool, steps: seq<Step>, trace: seq<System>, i: nat, atLeft: bool)
    requires i < |steps| == |trace| - 1
  {
    steps[i].atLeft == atLeft && Rotates(trace[i], trace[i + 1], steps[i])
  }

  predicate GaveUpAt(accepts: Key -> bool, steps: seq<Step>, trace: seq<System>, i: nat, atLeft: bool)
    requires i < |steps| == |trace| - 1
  {
    steps[i].atLeft == atLeft && GivesUp(trace[i], steps[i])
  }

  ghost function ActivatedIn(accepts: Key -> bool, steps: seq<Step>, trace: seq<System>, atLeft: bool): nat -> bool
    requires |trace| == |steps| + 1
  {
    (i: nat) => i < |steps| && ActivatedAt(accepts, steps, trace, i, atLeft)
  }

  ghost function DeactivatedIn(accepts: Key -> bool, steps: seq<Step>, trace: seq<System>, atLeft: bool): nat -> bool
    requires |trace| == |steps| + 1
  {
    (i: nat) => i < |steps| && DeactivatedAt(accepts, steps, trace, i, atLeft)
  }

  ghost function FellBackIn(accepts: Key -> bool, steps: seq<Step>, trace: seq<System>, atLeft: bool): nat -> bool
    requires |trace| == |steps| + 1
  {
    (i: nat) => i < |steps| && FellBackAt(accepts, steps, trace, i, atLeft)
  }

  ghost function RotatedIn(accepts: Key -> bool, steps: seq<Step>, trace: seq<System>, atLeft: bool): nat -> bool
    requires |trace| == |steps| + 1
  {
    (i: nat) => i < |steps| && RotatedAt(accepts, steps, trace, i, atLeft)
  }

  ghost function GaveUpIn(accepts: Key -> bool, steps: seq<Step>, trace: seq<System>, atLeft: bool): nat -> bool
    requires |trace| == |steps| + 1
  {
    (i: nat) => i < |steps| && GaveUpAt(accepts, steps, trace, i, atLeft)
  }

  function Initially(l: LaneState, r: LaneState, atLeft: bool): LaneState {
    if atLeft then l else r
  }

  /** What a step of the run did to the lane of one side. */
  lemma LaneAt(accepts: Key -> bool, l: LaneState, r: LaneState, steps: seq<Step>, trace: seq<System>, n: nat,
               atLeft: bool)
    requires IsTrace(accepts, l, r, steps, trace) && n < |steps|
    ensures var e, e' := At(trace[n], atLeft).e, At(trace[n + 1], atLeft).e;
      && (e'.state.Active? <==> ActivatedAt(accepts, steps, trace, n, atLeft)
                                || (e.state.Active? && !DeactivatedAt(accepts, steps, trace, n, atLeft)))
      && (e'.state.Degraded? <==> e.state.Degraded? || FellBackAt(accepts, steps, trace, n, atLeft))
      && (e'.state.WaitingForClient? <==> e.state.WaitingForClient? && !WokenAt(accepts, steps, trace, n, atLeft))
      && (e'.state.Disabled? <==> e.state.Disabled? && !ActivatedAt(accepts, steps, trace, n, atLeft)
                                  && !DeactivatedAt(accepts, steps, trace, n, atLeft))
      && (e'.stamped <==> RotatedAt(accepts, steps, trace, n, atLeft)
                          || (e.stamped && !GaveUpAt(accepts, steps, trace, n, atLeft)))
  {
    assert Goes(accepts, steps, trace, n);
    if steps[n].atLeft == atLeft {
      LaneStep(accepts, trace[n], trace[n + 1], steps[n]);
    } else {
      OtherLane(accepts, trace[n], steps[n]);
    }
  }

  /**
   In every run a lane is in use exactly when something put it into use - an acknowledgement or a usable key
   that completed its keys - and nothing since took it out of use: a peer without a key, a request given up,
   or falling back.
   */
  lemma {:induction false} ActiveIff(accepts: Key -> bool, l: LaneState, r: LaneState, steps: seq<Step>,
                                     trace: seq<System>, n: nat, atLeft: bool)
    requires IsTrace(accepts, l, r, steps, trace) && n <= |steps|
    ensures At(trace[n], atLeft).e.state.Active? <==>
            Holds(n, ActivatedIn(accepts, steps, trace, atLeft), DeactivatedIn(accepts, steps, trace, atLeft),
                  Initially(l, r, atLeft).Active?)
    decreases n
  {
    var done, undone := ActivatedIn(accepts, steps, trace, atLeft), DeactivatedIn(accepts, steps, trace, atLeft);
    if n == 0 {
      HoldsStart(done, undone, Initially(l, r, atLeft).Active?);
    } else {
      ActiveIff(accepts, l, r, steps, trace, n - 1, atLeft);
      LaneAt(accepts, l, r, steps, trace, n - 1, atLeft);
      HoldsStep(n - 1, done, undone, Initially(l, r, atLeft).Active?);
    }
  }

  /** In every run a side is degraded exactly when it was at the start or it fell back while in use. */
  lemma {:induction false} DegradedIff(accepts: Key -> bool, l: LaneState, r: LaneState, steps: seq<Step>,
                                       trace: seq<System>, n: nat, atLeft: bool)
    requires IsTrace(accepts, l, r, steps, trace) && n <= |steps|
    ensures At(trace[n], atLeft).e.state.Degraded? <==>
            Holds(n, FellBackIn(accepts, steps, trace, atLeft), (i: nat) => false, Initially(l, r, atLeft).Degraded?)
    decreases n
  {
    var done, undone := FellBackIn(accepts, steps, trace, atLeft), (i: nat) => false;
    if n == 0 {
      HoldsStart(done, undone, Initially(l, r, atLeft).Degraded?);
    } else {
      DegradedIff(accepts, l, r, steps, trace, n - 1, atLeft);
      LaneAt(accepts, l, r, steps, trace, n - 1, atLeft);
      HoldsStep(n - 1, done, undone, Initially(l, r, atLeft).Degraded?);
    }
  }

  /**
   In every run a side waits for its client exactly as long as no request has arrived, and a disabled lane
   stays disabled exactly as long as nothing puts it into use or out of use.
   */
  lemma {:induction false} UnsupportedIff(accepts: Key -> bool, l: LaneState, r: LaneState, steps: seq<Step>,
                                          trace: seq<System>, n: nat, atLeft: bool)
    requires IsTrace(accepts, l, r, steps, trace) && n <= |steps|
    ensures At(trace[n], atLeft).e.state.WaitingForClient? <==>
            && Initially(l, r, atLeft).WaitingForClient?
            && forall i :: 0 <= i < n ==> !WokenAt(accepts, steps, trace, i, atLeft)
    ensures At(trace[n], atLeft).e.state.Disabled? <==>
            && Initially(l, r, atLeft).Disabled?
            && forall i :: 0 <= i < n ==>
                 !ActivatedAt(accepts, steps, trace, i, atLeft) && !DeactivatedAt(accepts, steps, trace, i, atLeft)
    decreases n
  {
    if n > 0 {
      UnsupportedIff(accepts, l, r, steps, trace, n - 1, atLeft);
      LaneAt(accepts, l, r, steps, trace, n - 1, atLeft);
    }
  }

  /** In every run a rotation time is on record exactly when a rotation was started and not given up since. */
  lemma {:induction false} StampedIff(accepts: Key -> bool, l: LaneState, r: LaneState, steps: seq<Step>,
                                      trace: seq<System>, n: nat, atLeft: bool)
    requires IsTrace(accepts, l, r, steps, trace) && n <= |steps|
    ensures At(trace[n], atLeft).e.stamped <==>
            Holds(n, RotatedIn(accepts, steps, trace, atLeft), GaveUpIn(accepts, steps, trace, atLeft), false)
    decreases n
  {
    var done, undone := RotatedIn(accepts, steps, trace, atLeft), GaveUpIn(accepts, steps, trace, atLeft);
    if n == 0 {
      HoldsStart(done, undone, false);
    } else {
      StampedIff(accepts, l, r, steps, trace, n - 1, atLeft);
      LaneAt(accepts, l, r, steps, trace, n - 1, atLeft);
      HoldsStep(n - 1, done, undone, false);
    }
  }

  /**
   At any point of any run a rotation is started when asked for exactly when the lane is supported and
   undegraded and either the interval is over or no rotation has been started since the last one given up.
   */
  lemma RotationDueIff(accepts: Key -> bool, l: LaneState, r: LaneState, steps: seq<Step>, trace: seq<System>, n: nat,
                       atLeft: bool, key: Key, elapsed: bool)
    requires IsTrace(accepts, l, r, steps, trace) && n <= |steps|
    ensures var state := At(trace[n], atLeft).e.state;
      Rotates(trace[n], Next(accepts, trace[n], RotateKey(atLeft, key, elapsed)), RotateKey(atLeft, key, elapsed)) <==>
      && !state.Disabled? && !state.WaitingForClient? && !state.Degraded?
      && (elapsed || !Holds(n, RotatedIn(accepts, steps, trace, atLeft), GaveUpIn(accepts, steps, trace, atLeft),
                            false))
  {
    StampedIff(accepts, l, r, steps, trace, n, atLeft);
  }

  // ---- a lane in use, and a peer without a key ----

  /** A side is ready to send exactly when its lane is in use and both its keys are real. */
  lemma ReadyIff(accepts: Key -> bool, l: LaneState, r: LaneState, steps: seq<Step>, trace: seq<System>, n: nat,
                 atLeft: bool)
    requires IsTrace(accepts, l, r, steps, trace) && n <= |steps|
    ensures Ready(At(trace[n], atLeft).e) <==>
            && KeysUsable(At(trace[n], atLeft))
            && Holds(n, ActivatedIn(accepts, steps, trace, atLeft), DeactivatedIn(accepts, steps, trace, atLeft),
                     Initially(l, r, atLeft).Active?)
  {
    ActiveIff(accepts, l, r, steps, trace, n, atLeft);
  }

  /** The peer says it has no key. */
  predicate RefusedAt(accepts: Key -> bool, steps: seq<Step>, trace: seq<System>, i: nat, atLeft: bool)
    requires i < |steps| == |trace| - 1
  {
    && steps[i].atLeft == atLeft && Delivers(trace[i], steps[i]) && !steps[i].c.ack && !steps[i].c.enabled
    && !At(trace[i], atLeft).e.state.Degraded?
  }

  /** An acknowledgement of the side's latest request is delivered. */
  predicate AcknowledgedAt(accepts: Key -> bool, steps: seq<Step>, trace: seq<System>, i: nat, atLeft: bool)
    requires i < |steps| == |trace| - 1
  {
    && steps[i].atLeft == atLeft && Delivers(trace[i], steps[i]) && steps[i].c.ack
    && steps[i].c.counter == At(trace[i], atLeft).e.configCounter
  }

  /** A key it can use is delivered. */
  predicate KeyedAt(accepts: Key -> bool, steps: seq<Step>, trace: seq<System>, i: nat, atLeft: bool)
    requires i < |steps| == |trace| - 1
  {
    && steps[i].atLeft == atLeft && Delivers(trace[i], steps[i]) && !steps[i].c.ack
    && steps[i].c.enabled && accepts(steps[i].c.key)
  }

  /** A peer without a key stops the lane at once. */
  lemma RefusalStops(accepts: Key -> bool, l: LaneState, r: LaneState, steps: seq<Step>, trace: seq<System>, i: nat,
                     atLeft: bool)
    requires IsTrace(accepts, l, r, steps, trace) && i < |steps| && RefusedAt(accepts, steps, trace, i, atLeft)
    ensures !Ready(At(trace[i + 1], atLeft).e)
  {
    LaneAt(accepts, l, r, steps, trace, i, atLeft);
  }

  /**
   A side that is ready although its peer has said it has no key has since been delivered another key, or an
   acknowledgement of its own latest request.
   */
  lemma ReadyAfterRefusal(accepts: Key -> bool, l: LaneState, r: LaneState, steps: seq<Step>, trace: seq<System>,
                          i: nat, n: nat, atLeft: bool)
    returns (j: nat)
    requires IsTrace(accepts, l, r, steps, trace) && i < n <= |steps| && RefusedAt(accepts, steps, trace, i, atLeft)
    requires Ready(At(trace[n], atLeft).e)
    ensures i < j < n
    ensures AcknowledgedAt(accepts, steps, trace, j, atLeft) || KeyedAt(accepts, steps, trace, j, atLeft)
  {
    var done, undone := ActivatedIn(accepts, steps, trace, atLeft), DeactivatedIn(accepts, steps, trace, atLeft);
    ReadyIff(accepts, l, r, steps, trace, n, atLeft);
    assert undone(i) && !done(i);
    j := DoneSince(n, done, undone, Initially(l, r, atLeft).Active?, i);
  }

  /** Step `j` acknowledges the latest request, leaving an undegraded side with both keys; nothing stops it since. */
  ghost predicate Revived(accepts: Key -> bool, steps: seq<Step>, trace: seq<System>, j: int, n: nat, atLeft: bool)
    requires n <= |steps| == |trace| - 1
  {
    && 0 <= j < n && AcknowledgedAt(accepts, steps, trace, j, atLeft)
    && !At(trace[j], atLeft).e.state.Degraded? && KeysUsable(At(trace[j + 1], atLeft))
    && forall k :: j < k < n ==> !DeactivatedAt(accepts, steps, trace, k, atLeft)
  }

  /**
   So while the latest word of the peer is that it has no key, a side is ready exactly when its own latest request
   was acknowledged once more after that, with both keys at hand, and nothing has stopped the lane since.
   */
  lemma ReadyThoughRefusedIff(accepts: Key -> bool, l: LaneState, r: LaneState, steps: seq<Step>, trace: seq<System>,
                              i: nat, n: nat, atLeft: bool)
    requires IsTrace(accepts, l, r, steps, trace) && i < n <= |steps| && RefusedAt(accepts, steps, trace, i, atLeft)
    requires forall k :: i < k < n ==> !KeyedAt(accepts, steps, trace, k, atLeft)
    ensures Ready(At(trace[n], atLeft).e) <==>
            KeysUsable(At(trace[n], atLeft)) && exists j :: i < j && Revived(accepts, steps, trace, j, n, atLeft)
  {
    var done, undone := ActivatedIn(accepts, steps, trace, atLeft), DeactivatedIn(accepts, steps, trace, atLeft);
    var start := Initially(l, r, atLeft).Active?;
    ReadyIff(accepts, l, r, steps, trace, n, atLeft);
    if Holds(n, done, undone, start) {
      var from :| Lasts(from, n, done, undone, start);
      assert undone(i) && !done(i);
      LastsRevives(accepts, steps, trace, i, from, n, atLeft, start);
    }
    if j :| i < j && Revived(accepts, steps, trace, j, n, atLeft) {
      assert done(j);
      assert Lasts(j, n, done, undone, start);
    }
  }

  lemma LastsRevives(accepts: Key -> bool, steps: seq<Step>, trace: seq<System>, i: nat, from: int, n: nat,
                     atLeft: bool, start: bool)
    requires i < n <= |steps| == |trace| - 1
    requires var done := ActivatedIn(accepts, steps, trace, atLeft);
      var undone := DeactivatedIn(accepts, steps, trace, atLeft);
      Lasts(from, n, done, undone, start) && undone(i) && !done(i)
    requires forall k :: i < k < n ==> !KeyedAt(accepts, steps, trace, k, atLeft)
    ensures i < from && Revived(accepts, steps, trace, from, n, atLeft)
  {
    var done, undone := ActivatedIn(accepts, steps, trace, atLeft), DeactivatedIn(accepts, steps, trace, atLeft);
    assert i < from && done(from) && !KeyedAt(accepts, steps, trace, from, atLeft);
    forall k | from < k < n ensures !DeactivatedAt(accepts, steps, trace, k, atLeft) {
      assert !undone(k);
    }
  }

  /**
   A run in which that happens through an acknowledgement alone: the latest word of the right side is that it
   has no key, yet the left side is ready to send.
   */
  lemma ReadyThoughRefusedRun(accepts: Key -> bool, k1: Key, kr: Key, bad: Key)
    requires accepts(k1) && accepts(kr) && k1 != INVALID && kr != INVALID && !accepts(bad)
    ensures var h := GraceKeys.Handover(k1, kr) + [Deliver(true, Config(true, false, 1, kr), INVALID, false),
                                                   RotateKey(false, bad, true)];
      var refused := h + [Deliver(true, Config(false, false, 2, bad), INVALID, false)];
      var again := refused + [Deliver(true, Config(true, true, 1, k1), INVALID, false)];
      && Ready(Exec(accepts, Inactive, Inactive, h).left.e)
      && !Ready(Exec(accepts, Inactive, Inactive, refused).left.e)
      && Ready(Exec(accepts, Inactive, Inactive, again).left.e)
  {
    var start := GraceKeys.Handover(k1, kr);
    var a, b := Deliver(true, Config(true, false, 1, kr), INVALID, false), RotateKey(false, bad, true);
    var c := Deliver(true, Config(false, false, 2, bad), INVALID, false);
    var d := Deliver(true, Config(true, true, 1, k1), INVALID, false);
    GraceKeys.HandedOver(accepts, k1, kr);
    var s := Exec(accepts, Inactive, Inactive, start);
    PutIntoUse(accepts, s, k1, kr, bad);
    var s2 := Next(accepts, Next(accepts, s, a), b);
    RefusedThenAcknowledged(accepts, s2, k1, kr, bad);
    FourMore(accepts, start, a, b, c, d);
  }

  lemma FourMore(accepts: Key -> bool, start: seq<Step>, a: Step, b: Step, c: Step, d: Step)
    ensures var s2 := Next(accepts, Next(accepts, Exec(accepts, Inactive, Inactive, start), a), b);
      && Exec(accepts, Inactive, Inactive, start + [a, b]) == s2
      && Exec(accepts, Inactive, Inactive, start + [a, b] + [c]) == Next(accepts, s2, c)
      && Exec(accepts, Inactive, Inactive, start + [a, b] + [c] + [d]) == Next(accepts, Next(accepts, s2, c), d)
  {
    OneMore(accepts, start, a, start + [a]);
    OneMore(accepts, start + [a], b, start + [a, b]);
    OneMore(accepts, start + [a, b], c, start + [a, b] + [c]);
    OneMore(accepts, start + [a, b] + [c], d, start + [a, b] + [c] + [d]);
  }

  lemma OneMore(accepts: Key -> bool, steps: seq<Step>, step: Step, longer: seq<Step>)
    requires longer == steps + [step]
    ensures Exec(accepts, Inactive, Inactive, longer)
         == Next(accepts, Exec(accepts, Inactive, Inactive, steps), step)
  {
    assert longer[..|steps|] == steps;
  }

  lemma PutIntoUse(accepts: Key -> bool, s: System, k1: Key, kr: Key, bad: Key)
    requires accepts(kr) && k1 != INVALID && kr != INVALID && !accepts(bad)
    requires s.left.e.currentSelf == Some(k1) && s.left.e.configCounter == 1 && s.left.e.stamped
    requires s.left.e.nextSelf == None && s.left.e.state == s.right.e.state == Inactive && s.right.e.configCounter == 1
    requires {Config(true, true, 1, k1), Config(true, false, 1, kr)} <= s.left.inbox
    ensures var s' := Next(accepts, Next(accepts, s, Deliver(true, Config(true, false, 1, kr), INVALID, false)),
                           RotateKey(false, bad, true));
      && s'.left.e.currentSelf == Some(k1) && s'.left.e.currentPeer == Some(kr) && s'.left.e.state == Active
      && s'.left.e.configCounter == 1 && s'.left.e.stamped && s'.left.e.nextSelf == None
      && {Config(true, true, 1, k1), Config(false, false, 2, bad)} <= s'.left.inbox
  {
    GraceKeys.InstallStep(accepts, s, true, Config(true, false, 1, kr));
    var s1 := Next(accepts, s, Deliver(true, Config(true, false, 1, kr), INVALID, false));
    RotationStep(accepts, s1, false, bad, true);
  }

  lemma RefusedThenAcknowledged(accepts: Key -> bool, s: System, k1: Key, kr: Key, bad: Key)
    requires k1 != INVALID && kr != INVALID
    requires s.left.e.currentSelf == Some(k1) && s.left.e.currentPeer == Some(kr) && s.left.e.state == Active
    requires s.left.e.configCounter == 1 && s.left.e.stamped && s.left.e.nextSelf == None
    requires {Config(true, true, 1, k1), Config(false, false, 2, bad)} <= s.left.inbox
    ensures var s1 := Next(accepts, s, Deliver(true, Config(false, false, 2, bad), INVALID, false));
      var s2 := Next(accepts, s1, Deliver(true, Config(true, true, 1, k1), INVALID, false));
      Ready(s.left.e) && !Ready(s1.left.e) && Ready(s2.left.e)
  {
    var s1 := Next(accepts, s, Deliver(true, Config(false, false, 2, bad), INVALID, false));
    assert s1.left.e == s.left.e.(state := Inactive) && s1.left.inbox == s.left.inbox;
    AnswerPromotes(accepts, s1, true, Config(true, true, 1, k1));
  }

  // ---- a request left unanswered ----

  predicate FiredAt(accepts: Key -> bool, ss: seq<System>, atLeft: bool, c: Config, k: nat)
    requires k < |ss| - 1
  {
    ss[k + 1] == Next(accepts, ss[k], Fire(atLeft, c))
  }

  /** Ticks of one request, one after the other, with nothing else happening. */
  ghost predicate Ticking(accepts: Key -> bool, ss: seq<System>, atLeft: bool, c: Config) {
    ss != [] && forall k :: 0 <= k < |ss| - 1 ==> FiredAt(accepts, ss, atLeft, c, k)
  }

  function Repeated(c: Config, n: nat): seq<Config> {
    seq(n, _ => c)
  }

  /** The latest request, with one tick waiting and nothing sent again yet. */
  predicate Fresh(x: Node, c: Config) {
    && c in x.pending && x.pending[c] == 1 && !c.ack && c.counter == x.e.configCounter && x.e.retransmitCount == 0
    && Supported(x.e) && c.key != SelfKey(x.e)
  }

  /** `c` has gone out `n` times more, and nothing else has changed. */
  predicate SentAgain(x: Node, x': Node, c: Config, n: nat) {
    x' == x.(e := x.e.(retransmitCount := n), sent := x.sent + Repeated(c, n))
  }

  lemma FireRuns(accepts: Key -> bool, ss: seq<System>, atLeft: bool, c: Config, k: nat)
    requires Ticking(accepts, ss, atLeft, c) && k < |ss| - 1 && c in At(ss[k], atLeft).pending
    ensures var x := At(ss[k], atLeft);
      At(ss[k + 1], atLeft) == Ran(x.(pending := x.pending - multiset{c}), Tick(x.e, c))
  {
    assert FiredAt(accepts, ss, atLeft, c, k);
  }

  lemma TickAgain(x: Node, x': Node, c: Config)
    requires c in x.pending && !c.ack && c.counter == x.e.configCounter && Supported(x.e) && c.key != SelfKey(x.e)
    requires x' == Ran(x.(pending := x.pending - multiset{c}), Tick(x.e, c))
    ensures if x.e.retransmitCount < 5
            then x' == x.(e := x.e.(retransmitCount := x.e.retransmitCount + 1), sent := x.sent + [c])
            else && x'.pending == x.pending - multiset{c} && x'.sent == x.sent
                 && x'.e == (if x.e.state.Degraded? then x.e else x.e.(state := Inactive, stamped := false))
  {
    OneRequest(c);
    assert x.pending - multiset{c} + multiset{c} == x.pending;
  }

  lemma OnceMore(x0: Node, x: Node, x': Node, c: Config, n: nat)
    requires Fresh(x0, c) && 0 < n <= 5 && SentAgain(x0, x, c, n - 1)
    requires x' == Ran(x.(pending := x.pending - multiset{c}), Tick(x.e, c))
    ensures SentAgain(x0, x', c, n)
  {
    TickAgain(x, x', c);
    assert x0.sent + Repeated(c, n) == x0.sent + Repeated(c, n - 1) + [c];
  }

  lemma NotSentAgain(x: Node, c: Config)
    requires Fresh(x, c)
    ensures SentAgain(x, x, c, 0)
  {
    assert x.sent + Repeated(c, 0) == x.sent;
  }

  lemma {:induction false} ResentEachTick(accepts: Key -> bool, ss: seq<System>, atLeft: bool, c: Config, n: nat)
    requires Ticking(accepts, ss, atLeft, c) && Fresh(At(ss[0], atLeft), c) && n <= 5 && n < |ss|
    ensures SentAgain(At(ss[0], atLeft), At(ss[n], atLeft), c, n)
    decreases n
  {
    if n == 0 {
      NotSentAgain(At(ss[0], atLeft), c);
    } else {
      ResentEachTick(accepts, ss, atLeft, c, n - 1);
      FireRuns(accepts, ss, atLeft, c, n - 1);
      OnceMore(At(ss[0], atLeft), At(ss[n - 1], atLeft), At(ss[n], atLeft), c, n);
    }
  }

  /**
   Left unanswered, a request goes out again at each of its next five ticks, and at the sixth it is given up:
   the lane is out of use, a rotation is due at once, and no tick is left.
   */
  lemma UnansweredIsResentFiveTimes(accepts: Key -> bool, ss: seq<System>, atLeft: bool, c: Config)
    requires Ticking(accepts, ss, atLeft, c) && Fresh(At(ss[0], atLeft), c) && |ss| == 7
    ensures forall n :: 0 <= n <= 5 ==> SentAgain(At(ss[0], atLeft), At(ss[n], atLeft), c, n)
    ensures var x, x' := At(ss[0], atLeft), At(ss[6], atLeft);
      && x'.sent == x.sent + Repeated(c, 5) && c !in x'.pending
      && (if x.e.state.Degraded? then x'.e.state.Degraded? else x'.e.state.Inactive? && MayRotate(x'.e, false))
  {
    forall n | 0 <= n <= 5 ensures SentAgain(At(ss[0], atLeft), At(ss[n], atLeft), c, n) {
      ResentEachTick(accepts, ss, atLeft, c, n);
    }
    FireRuns(accepts, ss, atLeft, c, 5);
    TickAgain(At(ss[5], atLeft), At(ss[6], atLeft), c);
  }
}
