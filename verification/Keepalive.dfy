/** The client's keepalive loop, one turn of its `select!` at a time. */
module Keepalive {
  import opened Histories
  import opened Wrappers

  datatype State = Suspended | Inactive | Needed | Waiting | Pending

  datatype Message = Online | OutsideActivity | ReplyReceived | NetworkChange | TracerDeltaExceeded | Suspend

  /** What a turn of the loop takes up. */
  datatype Event = Got(m: Message) | SendNow | IntervalOver | TimeoutOver | Cancelled

  datatype Turn = Turn(at: nat, event: Event)

  datatype Config = Config(interval: nat, timeout: nat, continuous: bool)

  /** `since` is when the last turn was taken: the interval timer restarts on every one. */
  datatype Machine = Machine(state: State, armed: Option<nat>, since: nat)

  /** Which branches of the select can be taken at a given time. */
  predicate Enabled(c: Config, k: Machine, t: Turn) {
    && t.at >= k.since
    && match t.event
       case Got(_) => true
       case SendNow => k.state.Needed?
       case IntervalOver => (k.state.Pending? || k.state.Waiting?) && t.at >= k.since + c.interval
       case TimeoutOver => k.armed.Some? && t.at >= k.armed.value + c.timeout
       case Cancelled => true
  }

  function OnMessage(c: Config, k: Machine, m: Message): Machine {
    match m
    case Online => if (k.state.Inactive? || k.state.Suspended?) && c.continuous then k.(state := Waiting) else k
    case OutsideActivity => k.(armed := None)
    case ReplyReceived => k.(state := if c.continuous then Waiting else Inactive, armed := None)
    case NetworkChange => k.(state := Needed, armed := None)
    case TracerDeltaExceeded => if k.state.Pending? || k.state.Suspended? then k else k.(state := Needed)
    case Suspend => k.(state := Suspended, armed := None)
  }

  function Sent(k: Machine, at: nat): Machine {
    k.(state := Pending, armed := if k.armed.None? then Some(at) else k.armed)
  }

  function Next(c: Config, k: Machine, t: Turn): Machine {
    (match t.event
     case Got(m) => OnMessage(c, k, m)
     case SendNow => Sent(k, t.at)
     case IntervalOver => Sent(k, t.at)
     case TimeoutOver => k
     case Cancelled => k).(since := t.at)
  }

  const START := Machine(Inactive, None, 0)

  function Exec(c: Config, run: seq<Turn>): Machine {
    if run == [] then START else Next(c, Exec(c, run[..|run| - 1]), run[|run| - 1])
  }

  predicate Ends(e: Event) {
    e.TimeoutOver? || e.Cancelled?
  }

  /** A run of the loop: every turn was enabled, and only the last can end it. */
  predicate IsRun(c: Config, run: seq<Turn>) {
    forall i :: 0 <= i < |run| ==> Enabled(c, Exec(c, run[..i]), run[i]) && (i < |run| - 1 ==> !Ends(run[i].event))
  }

  datatype Ending = Running | TimedOut | WasCancelled

  class Loop {
    const c: Config
    var state: State
    var timeout: Option<nat>
    var since: nat
    var keepalives: nat

    function Meaning(): Machine
      reads this
    {
      Machine(state, timeout, since)
    }

    constructor (c: Config)
      ensures Meaning() == START && this.c == c && keepalives == 0
    {
      this.c := c;
      state, timeout, since, keepalives := Inactive, None, 0, 0;
    }

    method SendKeepalive(at: nat)
      modifies this`state, this`timeout, this`keepalives
      ensures Meaning() == Sent(old(Meaning()), at) && keepalives == old(keepalives) + 1
    {
      keepalives := keepalives + 1;
      state := Pending;
      if timeout.None? {
        timeout := Some(at);
      }
    }

    method Take(t: Turn) returns (r: Ending)
      requires Enabled(c, Meaning(), t)
      modifies this
      ensures Meaning() == Next(c, old(Meaning()), t)
      ensures r == if t.event.TimeoutOver? then TimedOut else if t.event.Cancelled? then WasCancelled else Running
      ensures keepalives == old(keepalives) + if t.event.SendNow? || t.event.IntervalOver? then 1 else 0
    {
      since := t.at;
      match t.event
      case Cancelled =>
        return WasCancelled;
      case Got(m) =>
        match m {
          case Online =>
            if (state.Inactive? || state.Suspended?) && c.continuous {
              state := Waiting;
            }
          case OutsideActivity =>
            timeout := None;
          case ReplyReceived =>
            state := if c.continuous then Waiting else Inactive;
            timeout := None;
          case NetworkChange =>
            state := Needed;
            timeout := None;
          case TracerDeltaExceeded =>
            if !state.Pending? && !state.Suspended? {
              state := Needed;
            }
          case Suspend =>
            state := Suspended;
            timeout := None;
        }
        return Running;
      case SendNow =>
        SendKeepalive(t.at);
        return Running;
      case IntervalOver =>
        SendKeepalive(t.at);
        return Running;
      case TimeoutOver =>
        return TimedOut;
    }
  }

  // ---- what every run guarantees ----

  predicate IsSend(e: Event) {
    e.SendNow? || e.IntervalOver?
  }

  /** Messages that call off a running timeout. */
  predicate Clears(e: Event) {
    e.Got? && (e.m.OutsideActivity? || e.m.ReplyReceived? || e.m.NetworkChange? || e.m.Suspend?)
  }

  /** What holds of the machine at every turn. */
  predicate Sound(c: Config, k: Machine) {
    (k.armed.Some? ==> k.state.Pending?) && (k.state.Waiting? ==> c.continuous)
  }

  lemma SoundStep(c: Config, k: Machine, t: Turn)
    requires Sound(c, k) && Enabled(c, k, t)
    ensures Sound(c, Next(c, k, t))
  {}

  /** The timeout is armed only while a reply is pending, and waiting happens only in continuous mode. */
  lemma {:induction false} ArmedOnlyWhilePending(c: Config, run: seq<Turn>)
    requires IsRun(c, run)
    ensures Sound(c, Exec(c, run))
    decreases |run|
  {
    if run != [] {
      PrefixIsRun(c, run, |run| - 1);
      ArmedOnlyWhilePending(c, run[..|run| - 1]);
      SoundStep(c, Exec(c, run[..|run| - 1]), run[|run| - 1]);
    }
  }

  lemma PrefixIsRun(c: Config, run: seq<Turn>, n: nat)
    requires IsRun(c, run) && n <= |run|
    ensures IsRun(c, run[..n])
  {
    forall i | 0 <= i < n ensures Enabled(c, Exec(c, run[..n][..i]), run[..n][i])
      && (i < n - 1 ==> !Ends(run[..n][i].event)) {
      assert run[..n][..i] == run[..i];
    }
  }

  /** Something after turn `i` calls off a timeout running then. */
  predicate Answered(run: seq<Turn>, i: nat) {
    exists m :: i < m < |run| && Clears(run[m].event)
  }

  predicate AllAnswered(run: seq<Turn>) {
    forall i :: 0 <= i < |run| && IsSend(run[i].event) ==> Answered(run, i)
  }

  /** Turn `i` sends, nothing clears after it, and every earlier send was answered before it. */
  predicate ArmedBy(run: seq<Turn>, i: nat) {
    && i < |run| && IsSend(run[i].event) && !Answered(run, i)
    && AllAnswered(run[..i])
  }

  lemma ArmedByExtends(run: seq<Turn>, t: Turn, i: nat)
    requires ArmedBy(run, i) && !Clears(t.event)
    ensures ArmedBy(run + [t], i)
  {
    var now := run + [t];
    assert now[..i] == run[..i];
    forall m | i < m < |now| ensures !Clears(now[m].event) {
      assert m < |run| ==> now[m] == run[m];
    }
  }

  lemma AllAnsweredExtends(run: seq<Turn>, t: Turn)
    requires AllAnswered(run) && !IsSend(t.event)
    ensures AllAnswered(run + [t])
  {
    var now := run + [t];
    forall i | 0 <= i < |now| && IsSend(now[i].event) ensures Answered(now, i) {
      assert now[i] == run[i] && Answered(run, i);
      var m :| i < m < |run| && Clears(run[m].event);
      assert now[m] == run[m];
    }
  }

  lemma ClearingAnswersAll(run: seq<Turn>, t: Turn)
    requires Clears(t.event)
    ensures AllAnswered(run + [t])
  {
    var now := run + [t];
    forall i | 0 <= i < |now| && IsSend(now[i].event) ensures Answered(now, i) {
      assert i < |run| && Clears(now[|run|].event);
    }
  }

  /** The turn that armed the timeout, if it is armed. */
  function ArmedTurn(run: seq<Turn>): Option<nat> {
    if run == [] then None
    else
      var before, e := ArmedTurn(run[..|run| - 1]), run[|run| - 1].event;
      if Clears(e) then None else if IsSend(e) && before.None? then Some(|run| - 1) else before
  }

  lemma {:induction false} ArmedTurnIsFirstUnanswered(run: seq<Turn>)
    ensures match ArmedTurn(run) case None => AllAnswered(run) case Some(i) => ArmedBy(run, i)
    decreases |run|
  {
    if run != [] {
      var before, t := run[..|run| - 1], run[|run| - 1];
      ArmedTurnIsFirstUnanswered(before);
      assert run == before + [t];
      if Clears(t.event) {
        ClearingAnswersAll(before, t);
      } else if ArmedTurn(before).Some? {
        ArmedByExtends(before, t, ArmedTurn(before).value);
      } else if !IsSend(t.event) {
        AllAnsweredExtends(before, t);
      } else {
        assert run[..|run| - 1] == before && !Answered(run, |run| - 1);
      }
    }
  }

  lemma {:induction false} ArmedIsArmedTurn(c: Config, run: seq<Turn>)
    ensures match ArmedTurn(run)
            case None => Exec(c, run).armed == None
            case Some(i) => i < |run| && Exec(c, run).armed == Some(run[i].at)
    decreases |run|
  {
    if run != [] {
      ArmedIsArmedTurn(c, run[..|run| - 1]);
    }
  }

  /**
   The timeout is armed exactly when some keepalive was sent with nothing clearing since, and it runs
   from the first such keepalive, whatever else was sent meanwhile.
   */
  lemma ArmedSinceFirstUnanswered(c: Config, run: seq<Turn>)
    ensures Exec(c, run).armed == None <==> AllAnswered(run)
    ensures forall i: nat :: ArmedBy(run, i) ==> Exec(c, run).armed == Some(run[i].at)
  {
    ArmedIsArmedTurn(c, run);
    ArmedTurnIsFirstUnanswered(run);
    forall i: nat | ArmedBy(run, i) ensures ArmedTurn(run) == Some(i) {
      var k := ArmedTurn(run);
      if k.Some? && i < k.value {
        EarlierAnswered(run, i, k.value);
      } else if k.Some? && k.value < i {
        EarlierAnswered(run, k.value, i);
      }
    }
  }

  lemma EarlierAnswered(run: seq<Turn>, i: nat, j: nat)
    requires ArmedBy(run, j) && i < j && IsSend(run[i].event)
    ensures Answered(run, i)
  {}

  /**
   A run ends in a timeout only if a keepalive went unanswered for the whole timeout: since it was
   sent there was no reply, outside activity, network change or suspension.
   */
  lemma TimedOutMeansUnanswered(c: Config, run: seq<Turn>) returns (i: nat)
    requires IsRun(c, run) && run != [] && run[|run| - 1].event.TimeoutOver?
    ensures i < |run| - 1 && IsSend(run[i].event) && run[|run| - 1].at >= run[i].at + c.timeout
    ensures forall m :: i < m < |run| ==> !Clears(run[m].event)
  {
    var n := |run| - 1;
    assert Enabled(c, Exec(c, run[..n]), run[n]);
    ArmedIsArmedTurn(c, run[..n]);
    ArmedTurnIsFirstUnanswered(run[..n]);
    i := ArmedTurn(run[..n]).value;
    forall m | i < m < |run| ensures !Clears(run[m].event) {
      if m < n {
        assert run[..n][m] == run[m];
      }
    }
  }

  // ---- suspension ----

  /** Messages that end a suspension. */
  predicate Wakes(c: Config, e: Event) {
    e.Got? && (e.m.NetworkChange? || e.m.ReplyReceived? || (e.m.Online? && c.continuous))
  }

  lemma ExecStep(c: Config, run: seq<Turn>, j: nat)
    requires j < |run|
    ensures Exec(c, run[..j + 1]) == Next(c, Exec(c, run[..j]), run[j])
  {
    assert run[..j + 1][..j] == run[..j];
  }

  lemma {:induction false} StaysSuspended(c: Config, run: seq<Turn>, i: nat, j: nat)
    requires IsRun(c, run) && i < j <= |run| && run[i].event == Got(Suspend)
    requires forall m :: i < m < j ==> !Wakes(c, run[m].event)
    ensures Exec(c, run[..j]).state == Suspended && Exec(c, run[..j]).armed == None
    decreases j
  {
    var before := Exec(c, run[..j - 1]);
    ExecStep(c, run, j - 1);
    if i < j - 1 {
      StaysSuspended(c, run, i, j - 1);
      assert Enabled(c, before, run[j - 1]);
      SuspendedStep(c, before, run[j - 1]);
    } else {
      SuspendSuspends(c, before, run[i]);
    }
  }

  lemma SuspendSuspends(c: Config, k: Machine, t: Turn)
    requires t.event == Got(Suspend)
    ensures Next(c, k, t).state == Suspended && Next(c, k, t).armed == None
  {}

  lemma SuspendedStep(c: Config, k: Machine, t: Turn)
    requires k.state == Suspended && k.armed == None && Enabled(c, k, t) && !Wakes(c, t.event)
    ensures Next(c, k, t).state == Suspended && Next(c, k, t).armed == None && !IsSend(t.event)
  {}

  /** After a suspension nothing is sent until a network change, a reply, or going online in continuous mode. */
  lemma NothingSentWhileSuspended(c: Config, run: seq<Turn>, i: nat, j: nat)
    requires IsRun(c, run) && i < j < |run| && run[i].event == Got(Suspend)
    requires forall m :: i < m < j ==> !Wakes(c, run[m].event)
    ensures !IsSend(run[j].event)
  {
    StaysSuspended(c, run, i, j);
    assert Enabled(c, Exec(c, run[..j]), run[j]);
  }

  // ---- what the state says about the run ----

  /** Events that decide the state whatever it was. */
  predicate Settles(e: Event) {
    IsSend(e) || (e.Got? && (e.m.ReplyReceived? || e.m.NetworkChange? || e.m.Suspend?))
  }

  /** A keepalive went out in the first `n` turns, with no reply, network change or suspension since. */
  ghost predicate AwaitsReply(run: seq<Turn>, n: nat) {
    Holds(n, (i: nat) => i < |run| && IsSend(run[i].event), (i: nat) => i < |run| && Settles(run[i].event), false)
  }

  /** A suspension came in the first `n` turns, and nothing that ends one since. */
  ghost predicate IsSuspended(c: Config, run: seq<Turn>, n: nat) {
    Holds(n, (i: nat) => i < |run| && run[i].event == Got(Suspend),
          (i: nat) => i < |run| && Wakes(c, run[i].event), false)
  }

  /** Turn `i` asks for a keepalive: the network changed, or the tracer fell behind while none was out or suspended. */
  ghost predicate Asks(c: Config, run: seq<Turn>, i: nat) {
    && i < |run|
    && (|| run[i].event == Got(NetworkChange)
        || (run[i].event == Got(TracerDeltaExceeded) && !AwaitsReply(run, i) && !IsSuspended(c, run, i)))
  }

  /** A keepalive was asked for in the first `n` turns, with none sent, no reply and no suspension since. */
  ghost predicate KeepaliveDue(c: Config, run: seq<Turn>, n: nat) {
    Holds(n, (i: nat) => Asks(c, run, i),
          (i: nat) => i < |run| && Settles(run[i].event) && run[i].event != Got(NetworkChange), false)
  }

  /** Some message other than outside activity arrived in the first `n` turns. */
  ghost predicate Stirred(run: seq<Turn>, n: nat) {
    exists i :: 0 <= i < n && i < |run| && run[i].event.Got? && run[i].event != Got(OutsideActivity)
  }

  lemma AwaitsStep(run: seq<Turn>, n: nat)
    requires n < |run|
    ensures AwaitsReply(run, n + 1) <==>
            IsSend(run[n].event) || (AwaitsReply(run, n) && !Settles(run[n].event))
  {
    HoldsStep(n, (i: nat) => i < |run| && IsSend(run[i].event), (i: nat) => i < |run| && Settles(run[i].event), false);
  }

  lemma SuspendedNextStep(c: Config, run: seq<Turn>, n: nat)
    requires n < |run|
    ensures IsSuspended(c, run, n + 1) <==>
            run[n].event == Got(Suspend) || (IsSuspended(c, run, n) && !Wakes(c, run[n].event))
  {
    HoldsStep(n, (i: nat) => i < |run| && run[i].event == Got(Suspend),
              (i: nat) => i < |run| && Wakes(c, run[i].event), false);
  }

  lemma DueStep(c: Config, run: seq<Turn>, n: nat)
    requires n < |run|
    ensures KeepaliveDue(c, run, n + 1) <==>
            || Asks(c, run, n)
            || (KeepaliveDue(c, run, n) && !(Settles(run[n].event) && run[n].event != Got(NetworkChange)))
  {
    HoldsStep(n, (i: nat) => Asks(c, run, i),
              (i: nat) => i < |run| && Settles(run[i].event) && run[i].event != Got(NetworkChange), false);
  }

  lemma StirredStep(run: seq<Turn>, n: nat)
    requires n < |run|
    ensures Stirred(run, n + 1) <==> Stirred(run, n) || (run[n].event.Got? && run[n].event != Got(OutsideActivity))
  {}

  /** The state these say the loop is in. */
  function StateFor(c: Config, awaits: bool, suspended: bool, due: bool, stirred: bool): State {
    if awaits then Pending else if suspended then Suspended else if due then Needed
    else if c.continuous && stirred then Waiting else Inactive
  }

  /** One turn, given what held of the history before it and what holds after. */
  lemma StateStep(c: Config, k: Machine, t: Turn, awaits: bool, suspended: bool, due: bool, stirred: bool, asks: bool)
    requires k.state == StateFor(c, awaits, suspended, due, stirred) && !(suspended && due) && Enabled(c, k, t)
    requires asks <==> t.event == Got(NetworkChange) || (t.event == Got(TracerDeltaExceeded) && !awaits && !suspended)
    ensures
      var suspended' := t.event == Got(Suspend) || (suspended && !Wakes(c, t.event));
      var due' := asks || (due && !(Settles(t.event) && t.event != Got(NetworkChange)));
      && Next(c, k, t).state ==
         StateFor(c, IsSend(t.event) || (awaits && !Settles(t.event)), suspended', due',
                  stirred || (t.event.Got? && t.event != Got(OutsideActivity)))
      && !(suspended' && due')
  {}

  ghost predicate Reads(c: Config, run: seq<Turn>, n: nat, k: Machine) {
    && k.state == StateFor(c, AwaitsReply(run, n), IsSuspended(c, run, n), KeepaliveDue(c, run, n), Stirred(run, n))
    && !(IsSuspended(c, run, n) && KeepaliveDue(c, run, n))
  }

  lemma ReadsStart(c: Config, run: seq<Turn>)
    ensures Reads(c, run, 0, START)
  {}

  lemma ReadsStep(c: Config, run: seq<Turn>, n: nat, k: Machine)
    requires n < |run| && Reads(c, run, n, k) && Enabled(c, k, run[n])
    ensures Reads(c, run, n + 1, Next(c, k, run[n]))
  {
    AwaitsStep(run, n);
    SuspendedNextStep(c, run, n);
    DueStep(c, run, n);
    StirredStep(run, n);
    StateStep(c, k, run[n], AwaitsReply(run, n), IsSuspended(c, run, n), KeepaliveDue(c, run, n), Stirred(run, n),
              Asks(c, run, n));
  }

  /** The state is read off the history of the run, at every turn. */
  lemma {:induction false} StateIsHistory(c: Config, run: seq<Turn>, n: nat)
    requires IsRun(c, run) && n <= |run|
    ensures Reads(c, run, n, Exec(c, run[..n]))
    decreases n
  {
    if n == 0 {
      ReadsStart(c, run);
    } else {
      StateIsHistory(c, run, n - 1);
      ExecStep(c, run, n - 1);
      assert Enabled(c, Exec(c, run[..n - 1]), run[n - 1]);
      ReadsStep(c, run, n - 1, Exec(c, run[..n - 1]));
    }
  }

  /** Turn `e` neither sends the keepalive asked for nor makes it needless. */
  predicate LeavesDue(e: Event) {
    Settles(e) ==> e == Got(NetworkChange)
  }

  lemma {:induction false} StaysNeeded(c: Config, run: seq<Turn>, i: nat, n: nat)
    requires IsRun(c, run) && i < n <= |run| && run[i].event == Got(NetworkChange)
    requires forall m :: i < m < n ==> LeavesDue(run[m].event)
    ensures Exec(c, run[..n]).state == Needed && Exec(c, run[..n]).armed == None
    decreases n
  {
    var before := Exec(c, run[..n - 1]);
    ExecStep(c, run, n - 1);
    if i < n - 1 {
      StaysNeeded(c, run, i, n - 1);
      assert Enabled(c, before, run[n - 1]);
      NeededStep(c, before, run[n - 1]);
    } else {
      ChangeAsks(c, before, run[i]);
    }
  }

  lemma ChangeAsks(c: Config, k: Machine, t: Turn)
    requires t.event == Got(NetworkChange)
    ensures Next(c, k, t).state == Needed && Next(c, k, t).armed == None
  {}

  lemma NeededStep(c: Config, k: Machine, t: Turn)
    requires k.state == Needed && k.armed == None && LeavesDue(t.event)
    ensures Next(c, k, t).state == Needed && Next(c, k, t).armed == None
  {}

  /**
   After a network change a keepalive can be sent at once, and stays so until it is sent, a reply comes or
   the loop is suspended. The timeout cannot end the loop meanwhile.
   */
  lemma NetworkChangeIsFollowedUp(c: Config, run: seq<Turn>, i: nat, n: nat, at: nat)
    requires IsRun(c, run) && i < n <= |run| && run[i].event == Got(NetworkChange)
    requires forall m :: i < m < n ==> LeavesDue(run[m].event)
    requires at >= Exec(c, run[..n]).since
    ensures Enabled(c, Exec(c, run[..n]), Turn(at, SendNow)) && !Enabled(c, Exec(c, run[..n]), Turn(at, TimeoutOver))
  {
    StaysNeeded(c, run, i, n);
  }

  function LastAt(run: seq<Turn>): nat {
    if run == [] then 0 else run[|run| - 1].at
  }

  /** Nothing but a rest between keepalives: none out, none due, not suspended, and the loop was started. */
  ghost predicate Resting(c: Config, run: seq<Turn>) {
    var n := |run|;
    c.continuous && Stirred(run, n) && !AwaitsReply(run, n) && !IsSuspended(c, run, n) && !KeepaliveDue(c, run, n)
  }

  lemma SinceIsLast(c: Config, run: seq<Turn>)
    ensures Exec(c, run).since == LastAt(run)
  {}

  lemma SendsFromHistory(c: Config, run: seq<Turn>, k: Machine, at: nat)
    requires Reads(c, run, |run|, k) && k.since == LastAt(run) <= at
    ensures Enabled(c, k, Turn(at, SendNow)) <==> KeepaliveDue(c, run, |run|) && !AwaitsReply(run, |run|)
    ensures Enabled(c, k, Turn(at, IntervalOver)) <==>
            (AwaitsReply(run, |run|) || Resting(c, run)) && at >= LastAt(run) + c.interval
  {}

  lemma TimeoutFromHistory(c: Config, run: seq<Turn>, k: Machine, at: nat)
    requires k == Exec(c, run) && k.since == LastAt(run) <= at
    ensures Enabled(c, k, Turn(at, TimeoutOver)) <==> exists i: nat :: ArmedBy(run, i) && at >= run[i].at + c.timeout
  {
    ArmedSinceFirstUnanswered(c, run);
    ArmedTurnIsFirstUnanswered(run);
    ArmedIsArmedTurn(c, run);
  }

  /**
   What can happen next, from the history alone: a keepalive at once when one is due, the next one an interval
   after the last turn when one is out or the loop rests, and the timeout only when some keepalive is that old.
   */
  lemma WhatCanHappen(c: Config, run: seq<Turn>, k: Machine, at: nat)
    requires IsRun(c, run) && k == Exec(c, run) && at >= LastAt(run)
    ensures Enabled(c, k, Turn(at, SendNow)) <==> KeepaliveDue(c, run, |run|) && !AwaitsReply(run, |run|)
    ensures Enabled(c, k, Turn(at, IntervalOver)) <==>
            (AwaitsReply(run, |run|) || Resting(c, run)) && at >= LastAt(run) + c.interval
    ensures Enabled(c, k, Turn(at, TimeoutOver)) <==> exists i: nat :: ArmedBy(run, i) && at >= run[i].at + c.timeout
  {
    assert run[..|run|] == run;
    StateIsHistory(c, run, |run|);
    SinceIsLast(c, run);
    SendsFromHistory(c, run, k, at);
    TimeoutFromHistory(c, run, k, at);
  }

  // ---- the loop itself ----

  /** Some keepalive went a full timeout before the end without a reply, activity, network change or suspend. */
  ghost predicate Unanswered(c: Config, run: seq<Turn>) {
    exists i :: 0 <= i < |run| - 1 && IsSend(run[i].event) && run[|run| - 1].at >= run[i].at + c.timeout
      && forall m :: i < m < |run| ==> !Clears(run[m].event)
  }

  lemma RunExtends(c: Config, run: seq<Turn>, t: Turn)
    requires IsRun(c, run) && Enabled(c, Exec(c, run), t) && !HasEnded(run)
    ensures IsRun(c, run + [t]) && Exec(c, run + [t]) == Next(c, Exec(c, run), t)
  {
    var longer := run + [t];
    assert longer[..|run|] == run;
    forall i | 0 <= i < |longer|
      ensures Enabled(c, Exec(c, longer[..i]), longer[i]) && (i < |longer| - 1 ==> !Ends(longer[i].event))
    {
      if i < |run| {
        assert longer[..i] == run[..i];
      }
    }
  }

  predicate HasEnded(run: seq<Turn>) {
    run != [] && Ends(run[|run| - 1].event)
  }

  function EndingOf(run: seq<Turn>): Ending {
    if !HasEnded(run) then Running else if run[|run| - 1].event.TimeoutOver? then TimedOut else WasCancelled
  }

  /** The turns taken among the first `k` offered: each that is enabled when offered, until one ends the loop. */
  function Taken(c: Config, offered: seq<Turn>, k: nat): seq<Turn>
    requires k <= |offered|
  {
    if k == 0 then []
    else
      var before, t := Taken(c, offered, k - 1), offered[k - 1];
      if !HasEnded(before) && Enabled(c, Exec(c, before), t) then before + [t] else before
  }

  lemma {:induction false} TakenIsRun(c: Config, offered: seq<Turn>, k: nat)
    requires k <= |offered|
    ensures IsRun(c, Taken(c, offered, k))
  {
    if k > 0 {
      TakenIsRun(c, offered, k - 1);
      var before, t := Taken(c, offered, k - 1), offered[k - 1];
      if !HasEnded(before) && Enabled(c, Exec(c, before), t) {
        RunExtends(c, before, t);
      }
    }
  }

  /** Every run is taken as it is when it is offered, so the loop reaches all of them. */
  lemma {:induction false} RunIsTaken(c: Config, run: seq<Turn>, k: nat)
    requires IsRun(c, run) && k <= |run|
    ensures Taken(c, run, k) == run[..k]
  {
    if k > 0 {
      RunIsTaken(c, run, k - 1);
      assert Enabled(c, Exec(c, run[..k - 1]), run[k - 1]) && run[..k] == run[..k - 1] + [run[k - 1]];
    }
  }

  lemma {:induction false} NothingTakenAfter(c: Config, offered: seq<Turn>, i: nat, j: nat)
    requires i <= j <= |offered| && HasEnded(Taken(c, offered, i))
    ensures Taken(c, offered, j) == Taken(c, offered, i)
    decreases j
  {
    if i < j {
      NothingTakenAfter(c, offered, i, j - 1);
    }
  }

  lemma TurnTaken(c: Config, run: seq<Turn>, t: Turn)
    ensures Exec(c, run + [t]) == Next(c, Exec(c, run), t)
    ensures Sends(run + [t]) == Sends(run) + if IsSend(t.event) then 1 else 0
    ensures HasEnded(run + [t]) == Ends(t.event)
    ensures EndingOf(run + [t]) == if t.event.TimeoutOver? then TimedOut else if t.event.Cancelled? then WasCancelled
                                   else Running
  {
    assert (run + [t])[..|run|] == run;
  }

  /** What the loop has taken is a run, and it timed out only unanswered. */
  lemma TakenIsSound(c: Config, offered: seq<Turn>)
    ensures var taken := Taken(c, offered, |offered|);
      IsRun(c, taken) && (EndingOf(taken) == TimedOut ==> taken != [] && Unanswered(c, taken))
  {
    var taken := Taken(c, offered, |offered|);
    TakenIsRun(c, offered, |offered|);
    if EndingOf(taken) == TimedOut {
      var i := TimedOutMeansUnanswered(c, taken);
    }
  }

  /** The first `i` turns offered have left the machine at `k`, not ended, with `sends` keepalives out. */
  ghost predicate Stands(c: Config, offered: seq<Turn>, i: nat, taken: seq<Turn>, k: Machine, sends: nat)
    requires i <= |offered|
  {
    taken == Taken(c, offered, i) && !HasEnded(taken) && k == Exec(c, taken) && sends == Sends(taken)
  }

  lemma StandsThen(c: Config, offered: seq<Turn>, i: nat, taken: seq<Turn>, k: Machine, sends: nat, t: Turn)
    requires i < |offered| && Stands(c, offered, i, taken, k, sends) && t == offered[i]
    ensures
      if !Enabled(c, k, t) then Stands(c, offered, i + 1, taken, k, sends)
      else if Ends(t.event) then
        && Taken(c, offered, |offered|) == taken + [t] && Sends(taken + [t]) == sends
        && EndingOf(taken + [t]) == if t.event.TimeoutOver? then TimedOut else WasCancelled
      else Stands(c, offered, i + 1, taken + [t], Next(c, k, t), sends + if IsSend(t.event) then 1 else 0)
  {
    TurnTaken(c, taken, t);
    if Enabled(c, k, t) && Ends(t.event) {
      NothingTakenAfter(c, offered, i + 1, |offered|);
    }
  }

  /**
   The loop offered any turns in any order takes exactly those it is waiting for, up to the one that ends
   it. What it takes is a run, it sends a keepalive for each turn that asks for one, and it times out only
   unanswered.
   */
  method Watch(c: Config, offered: seq<Turn>) returns (taken: seq<Turn>, r: Ending, keepalives: nat)
    ensures taken == Taken(c, offered, |offered|) && r == EndingOf(taken) && keepalives == Sends(taken)
    ensures IsRun(c, taken) && (r == TimedOut ==> taken != [] && Unanswered(c, taken))
  {
    taken, r, keepalives := TakeTurns(c, offered);
    TakenIsSound(c, offered);
  }

  method TakeTurns(c: Config, offered: seq<Turn>) returns (taken: seq<Turn>, r: Ending, keepalives: nat)
    ensures taken == Taken(c, offered, |offered|) && r == EndingOf(taken) && keepalives == Sends(taken)
  {
    var loop := new Loop(c);
    taken, r := [], Running;
    for i := 0 to |offered|
      invariant r == Running && loop.c == c && Stands(c, offered, i, taken, loop.Meaning(), loop.keepalives)
    {
      StandsThen(c, offered, i, taken, loop.Meaning(), loop.keepalives, offered[i]);
      if Enabled(c, loop.Meaning(), offered[i]) {
        r := loop.Take(offered[i]);
        taken := taken + [offered[i]];
        if r != Running {
          return taken, r, loop.keepalives;
        }
      }
    }
    keepalives := loop.keepalives;
  }

  function Sends(run: seq<Turn>): nat {
    if run == [] then 0 else Sends(run[..|run| - 1]) + if IsSend(run[|run| - 1].event) then 1 else 0
  }
}
