/**
 Whether the receiver can still open what the sender seals. Installing a key pushes the old one into
 the grace slot even when the same request is delivered twice, so what matters is how often the
 pending request has been taken up.
 */
module GraceKeys {
  import opened Wrappers
  import opened Aead
  import opened Frames
  import opened KeyExchange
  import opened KeyNetwork
  import opened KeyHandover
  import opened Retransmission
  import SessionSpec

  /** The receiver opens frames sealed under `k`: it holds it in its current or its grace slot. */
  predicate CanOpen(y: Node, k: Key) {
    SessionSpec.Holds(SlotsOf(y.e), k)
  }

  function SlotsOf(e: Endpoint): SessionSpec.Keys {
    SessionSpec.Keys(e.currentSelf, e.nextSelf, e.currentPeer, e.prevPeer)
  }

  /** How often the latest request of `x` has been taken up by `y`. */
  function TakenUp(x: Node, y: Node): nat {
    Transmissions(y.installs, x.e.configCounter)
  }

  /**
   The hypothesis on one step: no rotation starts while one is unacknowledged, its key is fresh and can
   be built, and a request taken up is either the sender's latest or one never taken up before.
   */
  predicate Orderly(accepts: Key -> bool, s: System, step: Step) {
    var x, y := At(s, step.atLeft), At(s, !step.atLeft);
    && (Started(accepts, s, step).Some? && !step.GoDegraded? ==>
          var k := Started(accepts, s, step).value;
          accepts(k) && k != INVALID && x.e.nextSelf == None && x.e.currentSelf != Some(k))
    && (Taken(accepts, s, step).Some? ==>
          var c := Taken(accepts, s, step).value;
          c.counter == y.e.configCounter || Transmissions(x.installs, c.counter) == 0)
  }

  ghost predicate OrderlyRun(accepts: Key -> bool, l: LaneState, r: LaneState, steps: seq<Step>) {
    forall i :: 0 <= i < |steps| ==> OrderlyAt(accepts, l, r, steps, i)
  }

  predicate OrderlyAt(accepts: Key -> bool, l: LaneState, r: LaneState, steps: seq<Step>, i: nat)
    requires i < |steps|
  {
    Orderly(accepts, Exec(accepts, l, r, steps[..i]), steps[i])
  }

  // ---- where the sender's keys are at the receiver ----

  /** The key of the latest request, staged or already in use. */
  function LatestKey(x: Node): Option<Key> {
    if x.e.nextSelf.Some? then x.e.nextSelf else x.e.currentSelf
  }

  /** Requests in flight: the latest carries the staged or the promoted key; older ones were all taken up. */
  ghost predicate InFlight(x: Node, y: Node) {
    && (forall c :: c in y.inbox && !c.ack ==>
          && c.enabled && c.key != INVALID
          && (c.counter == x.e.configCounter ==> LatestKey(x) == Some(c.key))
          && (c.counter < x.e.configCounter || x.e.nextSelf == None ==> Transmissions(y.installs, c.counter) > 0))
    && (forall c :: c in x.inbox && c.ack ==> Transmissions(y.installs, c.counter) > 0)
    && (forall i :: 0 <= i < |y.installs| ==> y.installs[i].counter <= x.e.configCounter)
  }

  ghost predicate Slots(x: Node, y: Node) {
    match x.e.nextSelf
    case None => Usable(x.e.currentSelf) ==> y.e.currentPeer == x.e.currentSelf
    case Some(k) =>
      && k != INVALID && x.e.currentSelf != Some(k)
      && (TakenUp(x, y) == 0 && Usable(x.e.currentSelf) ==> y.e.currentPeer == x.e.currentSelf)
      && (TakenUp(x, y) >= 1 ==> y.e.currentPeer == Some(k))
      && (TakenUp(x, y) == 1 && Usable(x.e.currentSelf) ==> y.e.prevPeer == x.e.currentSelf)
      && (TakenUp(x, y) >= 2 ==> y.e.prevPeer == Some(k))
  }

  /** While `x` is not degraded. */
  ghost predicate Grace(x: Node, y: Node) {
    !x.e.state.Degraded? ==> InFlight(x, y) && Slots(x, y)
  }

  /** The sender's current key can be opened exactly when its pending request was taken up at most once. */
  lemma HeldIffTakenUpOnce(x: Node, y: Node)
    requires Grace(x, y) && !x.e.state.Degraded? && Usable(x.e.currentSelf)
    ensures CanOpen(y, x.e.currentSelf.value) <==> x.e.nextSelf == None || TakenUp(x, y) <= 1
  {}

  lemma AnnounceGrace(accepts: Key -> bool, x: Node, x': Node, y: Node, y': Node, k: Key, c: Config)
    requires InFlight(x, y) && Slots(x, y) && Mail(x, y)
    requires Announced(accepts, x, x', y', k, c) && Carried(x, x', y, y', {c})
    requires accepts(k) && k != INVALID && x.e.nextSelf == None && x.e.currentSelf != Some(k)
    ensures InFlight(x', y') && Slots(x', y')
  {
    NoneBeyond(y.installs, c.counter);
  }

  lemma PromoteGrace(x: Node, x': Node, y: Node, y': Node)
    requires InFlight(x, y) && Slots(x, y) && Mail(x, y) && Promoted(x, x') && Carried(x, x', y, y', {})
    ensures InFlight(x', y') && Slots(x', y')
  {}

  lemma StillGrace(x: Node, x': Node, y: Node, y': Node, requests: set<Config>)
    requires InFlight(x, y) && Slots(x, y) && Carried(x, x', y, y', requests) && requests <= y.inbox
    requires x'.e.configCounter == x.e.configCounter && x'.e.nextSelf == x.e.nextSelf
        && x'.e.currentSelf == x.e.currentSelf
    ensures InFlight(x', y') && Slots(x', y')
  {}

  lemma SenderGrace(accepts: Key -> bool, x: Node, x': Node, y: Node, y': Node, started: Option<Key>)
    requires InFlight(x, y) && Slots(x, y) && Mail(x, y) && Acted(accepts, x, x', y, y', started)
    requires started.Some? ==>
               accepts(started.value) && started.value != INVALID && x.e.nextSelf == None && x.e.currentSelf != started
    ensures InFlight(x', y') && Slots(x', y')
  {
    if started.Some? {
      var c :| Announced(accepts, x, x', y', started.value, c) && Carried(x, x', y, y', {c});
      AnnounceGrace(accepts, x, x', y, y', started.value, c);
    } else if Carried(x, x', y, y', {}) && Promoted(x, x') {
      PromoteGrace(x, x', y, y');
    } else if Carried(x, x', y, y', {}) && Idled(x, x') {
      StillGrace(x, x', y, y', {});
    } else {
      var c :| Resent(x, x', c) && Carried(x, x', y, y', {c});
      StillGrace(x, x', y, y', {c});
    }
  }

  /** Taking up a request the sender still stands by moves its key in and the old one to the grace slot. */
  lemma TakeUpGrace(x: Node, x': Node, y: Node, y': Node, c: Config)
    requires InFlight(x, y) && Slots(x, y) && Mail(x, y) && Took(y, y', x, x', Some(c))
    requires x'.e == x.e && y'.inbox == y.inbox
    requires forall d :: d in x'.inbox && d !in x.inbox && d.ack ==> d.(ack := false) in y.inbox
    requires c.counter == x.e.configCounter || Transmissions(y.installs, c.counter) == 0
    ensures InFlight(x', y') && Slots(x', y')
  {
    assert c.counter == x.e.configCounter;
    forall n ensures Transmissions(y'.installs, n) == Transmissions(y.installs, n) + if n == c.counter then 1 else 0 {
      TransmissionsAppend(y.installs, c, n);
    }
  }

  lemma ReceiverGrace(accepts: Key -> bool, x: Node, x': Node, y: Node, y': Node, started: Option<Key>,
                      taken: Option<Config>)
    requires InFlight(x, y) && Slots(x, y) && Mail(x, y) && Stepped(accepts, y, y', x, x', started, taken)
    requires taken.Some? ==>
               taken.value.counter == x.e.configCounter || Transmissions(y.installs, taken.value.counter) == 0
    ensures InFlight(x', y') && Slots(x', y')
  {
    if taken.Some? {
      TakeUpGrace(x, x', y, y', taken.value);
    }
  }

  ghost predicate GraceKept(x: Node, y: Node) {
    Grace(x, y) && Mail(x, y) && Mail(y, x)
  }

  lemma NextGrace(accepts: Key -> bool, s: System, s': System, step: Step, atLeft: bool)
    requires GraceKept(At(s, atLeft), At(s, !atLeft)) && Orderly(accepts, s, step) && s' == Next(accepts, s, step)
    ensures GraceKept(At(s', atLeft), At(s', !atLeft))
  {
    var x, x', y, y' := At(s, atLeft), At(s', atLeft), At(s, !atLeft), At(s', !atLeft);
    MailStep(accepts, s, step);
    StepActs(accepts, s, step);
    if !x'.e.state.Degraded? {
      if step.atLeft != atLeft {
        OtherUntouched(accepts, s, step);
        ReceiverGrace(accepts, x, x', y, y', Started(accepts, s, step), Taken(accepts, s, step));
      } else {
        NotDegrading(accepts, s, step);
        SenderGrace(accepts, x, x', y, y', Started(accepts, s, step));
      }
    }
  }

  lemma NotDegrading(accepts: Key -> bool, s: System, step: Step)
    requires !At(Next(accepts, s, step), step.atLeft).e.state.Degraded?
    ensures !At(s, step.atLeft).e.state.Degraded? && (step.GoDegraded? ==> Started(accepts, s, step) == None)
  {
    if At(s, step.atLeft).e.state.Degraded? {
      DegradedStays(accepts, s, step, step.atLeft);
    }
  }

  lemma StartGrace(x: Node, y: Node)
    requires x == Start(x.e.state) && y == Start(y.e.state)
    ensures GraceKept(x, y)
  {}

  lemma {:induction false} RunGrace(accepts: Key -> bool, l: LaneState, r: LaneState, steps: seq<Step>, n: nat,
                                    atLeft: bool)
    requires OrderlyRun(accepts, l, r, steps) && n <= |steps|
    ensures var s := Exec(accepts, l, r, steps[..n]); GraceKept(At(s, atLeft), At(s, !atLeft))
    decreases n
  {
    if n == 0 {
      assert steps[..0] == [];
      StartGrace(Start(if atLeft then l else r), Start(if atLeft then r else l));
    } else {
      RunGrace(accepts, l, r, steps, n - 1, atLeft);
      assert OrderlyAt(accepts, l, r, steps, n - 1);
      ExecStep(accepts, l, r, steps, n - 1);
      NextGrace(accepts, Exec(accepts, l, r, steps[..n - 1]), Exec(accepts, l, r, steps[..n]), steps[n - 1], atLeft);
    }
  }

  /**
   In every orderly run, while the sender is not degraded, the receiver can open what is sealed under
   the sender's current key exactly when no key is pending or the pending request was taken up at
   most once.
   */
  lemma SealedStaysOpenable(accepts: Key -> bool, l: LaneState, r: LaneState, steps: seq<Step>, atLeft: bool)
    requires OrderlyRun(accepts, l, r, steps)
    ensures var s := Exec(accepts, l, r, steps);
      var x, y := At(s, atLeft), At(s, !atLeft);
      !x.e.state.Degraded? && Usable(x.e.currentSelf) ==>
        (CanOpen(y, x.e.currentSelf.value) <==> x.e.nextSelf == None || TakenUp(x, y) <= 1)
  {
    RunGrace(accepts, l, r, steps, |steps|, atLeft);
    assert steps[..|steps|] == steps;
    var s := Exec(accepts, l, r, steps);
    if !At(s, atLeft).e.state.Degraded? && Usable(At(s, atLeft).e.currentSelf) {
      HeldIffTakenUpOnce(At(s, atLeft), At(s, !atLeft));
    }
  }

  // ---- each request delivered at most once ----

  /** No request is taken up by a node that already took it up. */
  ghost predicate DeliveredOnce(accepts: Key -> bool, l: LaneState, r: LaneState, steps: seq<Step>) {
    forall i :: 0 <= i < |steps| ==> OnceAt(accepts, l, r, steps, i)
  }

  predicate OnceAt(accepts: Key -> bool, l: LaneState, r: LaneState, steps: seq<Step>, i: nat)
    requires i < |steps|
  {
    StepOnce(accepts, Exec(accepts, l, r, steps[..i]), steps[i])
  }

  predicate StepOnce(accepts: Key -> bool, s: System, step: Step) {
    Taken(accepts, s, step).Some? ==>
      Transmissions(At(s, step.atLeft).installs, Taken(accepts, s, step).value.counter) == 0
  }

  /** No two installs answer requests of the same counter. */
  ghost predicate Distinct(installs: seq<Config>) {
    forall i, j :: 0 <= i < j < |installs| ==> installs[i].counter != installs[j].counter
  }

  lemma {:induction false} CountedAt(installs: seq<Config>, i: nat)
    requires i < |installs|
    ensures Transmissions(installs, installs[i].counter) > 0
  {
    if i < |installs| - 1 {
      CountedAt(installs[..|installs| - 1], i);
    }
  }

  lemma DistinctGrows(installs: seq<Config>, c: Config)
    requires Distinct(installs) && Transmissions(installs, c.counter) == 0
    ensures Distinct(installs + [c])
  {
    forall i | 0 <= i < |installs| ensures installs[i].counter != c.counter {
      CountedAt(installs, i);
    }
  }

  lemma {:induction false} NoneCounted(installs: seq<Config>, n: nat)
    requires forall i :: 0 <= i < |installs| ==> installs[i].counter != n
    ensures Transmissions(installs, n) == 0
  {
    if installs != [] {
      NoneCounted(installs[..|installs| - 1], n);
    }
  }

  lemma {:induction false} DistinctCount(installs: seq<Config>, n: nat)
    requires Distinct(installs)
    ensures Transmissions(installs, n) <= 1
  {
    if installs != [] {
      var init := installs[..|installs| - 1];
      if installs[|installs| - 1].counter == n {
        NoneCounted(init, n);
      } else {
        DistinctCount(init, n);
      }
    }
  }

  lemma StepDistinct(accepts: Key -> bool, s: System, s': System, step: Step, atLeft: bool)
    requires Mail(At(s, step.atLeft), At(s, !step.atLeft)) && StepOnce(accepts, s, step)
    requires Distinct(At(s, atLeft).installs) && s' == Next(accepts, s, step)
    ensures Distinct(At(s', atLeft).installs)
  {
    if step.atLeft == atLeft {
      StepTook(accepts, s, s', step, At(s, atLeft), At(s', atLeft), At(s, !atLeft), At(s', !atLeft));
      if Taken(accepts, s, step).Some? {
        DistinctGrows(At(s, atLeft).installs, Taken(accepts, s, step).value);
      }
    } else {
      OtherUntouched(accepts, s, step);
    }
  }

  lemma {:induction false} RunDistinct(accepts: Key -> bool, l: LaneState, r: LaneState, steps: seq<Step>, n: nat,
                                       atLeft: bool)
    requires DeliveredOnce(accepts, l, r, steps) && n <= |steps|
    ensures DistinctAt(accepts, l, r, steps, n, atLeft)
    decreases n
  {
    if n == 0 {
      DistinctAtStart(accepts, l, r, steps, atLeft);
    } else {
      RunDistinct(accepts, l, r, steps, n - 1, atLeft);
      assert OnceAt(accepts, l, r, steps, n - 1);
      DistinctAfter(accepts, l, r, steps, n - 1, atLeft);
    }
  }

  ghost predicate DistinctAt(accepts: Key -> bool, l: LaneState, r: LaneState, steps: seq<Step>, n: nat, atLeft: bool)
    requires n <= |steps|
  {
    Distinct(At(Exec(accepts, l, r, steps[..n]), atLeft).installs)
  }

  lemma DistinctAtStart(accepts: Key -> bool, l: LaneState, r: LaneState, steps: seq<Step>, atLeft: bool)
    ensures DistinctAt(accepts, l, r, steps, 0, atLeft)
  {
    assert steps[..0] == [];
  }

  lemma DistinctAfter(accepts: Key -> bool, l: LaneState, r: LaneState, steps: seq<Step>, n: nat, atLeft: bool)
    requires n < |steps| && OnceAt(accepts, l, r, steps, n) && DistinctAt(accepts, l, r, steps, n, atLeft)
    ensures DistinctAt(accepts, l, r, steps, n + 1, atLeft)
  {
    ExecStep(accepts, l, r, steps, n);
    MailAlways(accepts, l, r, steps[..n]);
    StepDistinct(accepts, Exec(accepts, l, r, steps[..n]), Exec(accepts, l, r, steps[..n + 1]), steps[n], atLeft);
  }

  /** Delivered at most once and rotated in turn, everything sealed under the current key can be opened. */
  lemma OpenableWhenDeliveredOnce(accepts: Key -> bool, l: LaneState, r: LaneState, steps: seq<Step>, atLeft: bool)
    requires OrderlyRun(accepts, l, r, steps) && DeliveredOnce(accepts, l, r, steps)
    ensures var s := Exec(accepts, l, r, steps);
      var x, y := At(s, atLeft), At(s, !atLeft);
      !x.e.state.Degraded? && Usable(x.e.currentSelf) ==> CanOpen(y, x.e.currentSelf.value)
  {
    SealedStaysOpenable(accepts, l, r, steps, atLeft);
    RunDistinct(accepts, l, r, steps, |steps|, !atLeft);
    assert steps[..|steps|] == steps;
    var s := Exec(accepts, l, r, steps);
    DistinctCount(At(s, !atLeft).installs, At(s, atLeft).e.configCounter);
  }

  /** After any orderly run, delivering the pending request a second time evicts the key still in use. */
  lemma RedeliveryEvicts(accepts: Key -> bool, l: LaneState, r: LaneState, steps: seq<Step>, step: Step)
    requires OrderlyRun(accepts, l, r, steps)
    requires var s := Exec(accepts, l, r, steps);
      var x, y := At(s, !step.atLeft), At(s, step.atLeft);
      && !x.e.state.Degraded? && Usable(x.e.currentSelf) && x.e.nextSelf.Some? && TakenUp(x, y) == 1
      && Taken(accepts, s, step).Some? && Taken(accepts, s, step).value.counter == x.e.configCounter
    ensures var s := Exec(accepts, l, r, steps);
      var k := At(s, !step.atLeft).e.currentSelf.value;
      CanOpen(At(s, step.atLeft), k) && !CanOpen(At(Next(accepts, s, step), step.atLeft), k)
  {
    RunGrace(accepts, l, r, steps, |steps|, !step.atLeft);
    assert steps[..|steps|] == steps;
    StepActs(accepts, Exec(accepts, l, r, steps), step);
  }

  // ---- frames already in flight ----

  /** The two slots are the two latest installs. */
  predicate LastTwo(y: Node) {
    var n := |y.installs|;
    && y.e.currentPeer == (if n >= 1 then Some(y.installs[n - 1].key) else None)
    && y.e.prevPeer == (if n >= 2 then Some(y.installs[n - 2].key) else None)
  }

  lemma LastTwoKept(x: Node, x': Node, y: Node, y': Node, taken: Option<Config>)
    requires LastTwo(x) && Took(x, x', y, y', taken)
    ensures LastTwo(x') && x.installs <= x'.installs
  {}

  lemma LastTwoStep(accepts: Key -> bool, s: System, step: Step, atLeft: bool)
    requires LastTwo(At(s, atLeft)) && Mail(At(s, step.atLeft), At(s, !step.atLeft))
    ensures LastTwo(At(Next(accepts, s, step), atLeft))
  {
    var s' := Next(accepts, s, step);
    if step.atLeft == atLeft {
      OwnLastTwo(accepts, s, s', step, At(s, atLeft), At(s', atLeft), At(s, !atLeft), At(s', !atLeft));
    } else {
      OtherUntouched(accepts, s, step);
      SameLastTwo(At(s, atLeft), At(s', atLeft));
    }
  }

  lemma OwnLastTwo(accepts: Key -> bool, s: System, s': System, step: Step, x: Node, x': Node, y: Node, y': Node)
    requires s' == Next(accepts, s, step) && x == At(s, step.atLeft) && x' == At(s', step.atLeft)
    requires y == At(s, !step.atLeft) && y' == At(s', !step.atLeft) && Mail(x, y) && LastTwo(x)
    ensures LastTwo(x')
  {
    StepTook(accepts, s, s', step, x, x', y, y');
    LastTwoKept(x, x', y, y', Taken(accepts, s, step));
  }

  lemma SameLastTwo(y: Node, y': Node)
    requires LastTwo(y) && y'.e == y.e && y'.installs == y.installs
    ensures LastTwo(y')
  {}

  lemma StepTook(accepts: Key -> bool, s: System, s': System, step: Step, x: Node, x': Node, y: Node, y': Node)
    requires s' == Next(accepts, s, step) && x == At(s, step.atLeft) && x' == At(s', step.atLeft)
    requires y == At(s, !step.atLeft) && y' == At(s', !step.atLeft) && Mail(x, y)
    ensures Took(x, x', y, y', Taken(accepts, s, step))
  {
    StepActs(accepts, s, step);
  }

  lemma InstallsGrowStep(accepts: Key -> bool, s: System, step: Step, atLeft: bool)
    requires Mail(At(s, step.atLeft), At(s, !step.atLeft))
    ensures At(s, atLeft).installs <= At(Next(accepts, s, step), atLeft).installs
  {
    StepActs(accepts, s, step);
  }

  lemma {:induction false} RunLastTwo(accepts: Key -> bool, l: LaneState, r: LaneState, steps: seq<Step>, atLeft: bool)
    ensures LastTwo(At(Exec(accepts, l, r, steps), atLeft))
    decreases |steps|
  {
    if steps != [] {
      var n := |steps| - 1;
      RunLastTwo(accepts, l, r, steps[..n], atLeft);
      MailAlways(accepts, l, r, steps[..n]);
      LastTwoStep(accepts, Exec(accepts, l, r, steps[..n]), steps[n], atLeft);
    }
  }

  lemma {:induction false} RunInstallsGrow(accepts: Key -> bool, l: LaneState, r: LaneState, steps: seq<Step>, n: nat,
                                           m: nat, atLeft: bool)
    requires n <= m <= |steps|
    ensures At(Exec(accepts, l, r, steps[..n]), atLeft).installs <= At(Exec(accepts, l, r, steps[..m]), atLeft).installs
    decreases m
  {
    if n < m {
      RunInstallsGrow(accepts, l, r, steps, n, m - 1, atLeft);
      ExecStep(accepts, l, r, steps, m - 1);
      MailAlways(accepts, l, r, steps[..m - 1]);
      InstallsGrowStep(accepts, Exec(accepts, l, r, steps[..m - 1]), steps[m - 1], atLeft);
    }
  }

  /** What was installed after the last install of `k`. */
  function NewerThan(installs: seq<Config>, k: Key): seq<Config> {
    if installs == [] || installs[|installs| - 1].key == k then []
    else NewerThan(installs[..|installs| - 1], k) + [installs[|installs| - 1]]
  }

  /** An installed key is in one of the slots exactly while at most one install is newer. */
  lemma InSlotsIff(y: Node, k: Key)
    requires LastTwo(y) && Installed(y, k)
    ensures y.e.currentPeer == Some(k) || y.e.prevPeer == Some(k) <==> |NewerThan(y.installs, k)| <= 1
  {
    var n := |y.installs|;
    if y.installs[n - 1].key != k {
      var init := y.installs[..n - 1];
      assert n >= 2 && init[n - 2] == y.installs[n - 2];
      assert |NewerThan(y.installs, k)| == |NewerThan(init, k)| + 1;
    }
  }

  /** In any run at all, a key once installed is held exactly until the second install after it. */
  lemma HeldUntilSecondInstall(accepts: Key -> bool, l: LaneState, r: LaneState, steps: seq<Step>, n: nat,
                               atLeft: bool, k: Key)
    requires n <= |steps| && Installed(At(Exec(accepts, l, r, steps[..n]), atLeft), k)
    ensures var y := At(Exec(accepts, l, r, steps), atLeft);
      (y.e.currentPeer == Some(k) || y.e.prevPeer == Some(k)) <==> |NewerThan(y.installs, k)| <= 1
  {
    assert steps[..|steps|] == steps;
    RunLastTwo(accepts, l, r, steps, atLeft);
    RunInstallsGrow(accepts, l, r, steps, n, |steps|, atLeft);
    var was, now := At(Exec(accepts, l, r, steps[..n]), atLeft), At(Exec(accepts, l, r, steps), atLeft);
    var i :| 0 <= i < |was.installs| && was.installs[i].key == k;
    assert now.installs[i].key == k;
    InSlotsIff(now, k);
  }

  /**
   In every run: a key that was the sender's at step `n`, every exchange of its up to there having been
   safe, can be opened in the end exactly while the receiver has installed at most one key after it
   and what it holds now is a real key.
   */
  lemma EarlierKeyOpenableIff(accepts: Key -> bool, l: LaneState, r: LaneState, steps: seq<Step>, n: nat,
                              atLeft: bool, k: Key)
    requires n <= |steps| && Careful(accepts, l, r, steps[..n], atLeft)
    requires At(Exec(accepts, l, r, steps[..n]), atLeft).e.currentSelf == Some(k) && k != INVALID
    ensures var y := At(Exec(accepts, l, r, steps), !atLeft);
      CanOpen(y, k) <==> |NewerThan(y.installs, k)| <= 1 && Usable(y.e.currentPeer)
  {
    assert steps[..n][..n] == steps[..n];
    RunKeeps(accepts, l, r, steps[..n], n, atLeft);
    HeldUntilSecondInstall(accepts, l, r, steps, n, !atLeft, k);
  }

  /** In an orderly run every enabled request carries a real key, and so does every install. */
  ghost predicate RealKeys(x: Node, y: Node) {
    && (forall c :: c in y.inbox && !c.ack && c.enabled ==> c.key != INVALID)
    && (forall i :: 0 <= i < |y.installs| ==> y.installs[i].key != INVALID)
  }

  lemma RealKeysStep(accepts: Key -> bool, s: System, step: Step, atLeft: bool)
    requires var x, y := At(s, atLeft), At(s, !atLeft); RealKeys(x, y) && Mail(x, y) && Mail(y, x)
    requires Orderly(accepts, s, step)
    ensures var s' := Next(accepts, s, step); RealKeys(At(s', atLeft), At(s', !atLeft))
  {
    var s' := Next(accepts, s, step);
    StepActs(accepts, s, step);
    if step.atLeft == atLeft && step.GoDegraded? && Ready(At(s, atLeft).e) {
      assert At(s', atLeft).e.state.Degraded?;
    }
    RealKeysKept(accepts, At(s, atLeft), At(s', atLeft), At(s, !atLeft), At(s', !atLeft), s, step, atLeft);
  }

  lemma RealKeysKept(accepts: Key -> bool, x: Node, x': Node, y: Node, y': Node, s: System, step: Step, atLeft: bool)
    requires RealKeys(x, y) && Mail(x, y)
    requires if step.atLeft == atLeft
        then Stepped(accepts, x, x', y, y', Started(accepts, s, step), Taken(accepts, s, step))
             else Stepped(accepts, y, y', x, x', Started(accepts, s, step), Taken(accepts, s, step))
    requires step.atLeft == atLeft && Started(accepts, s, step).Some? ==>
               Started(accepts, s, step).value != INVALID || x'.e.state.Degraded?
    ensures RealKeys(x', y')
  {}

  lemma {:induction false} RunRealKeys(accepts: Key -> bool, l: LaneState, r: LaneState, steps: seq<Step>, n: nat,
                                       atLeft: bool)
    requires OrderlyRun(accepts, l, r, steps) && n <= |steps|
    ensures var s := Exec(accepts, l, r, steps[..n]); RealKeys(At(s, atLeft), At(s, !atLeft))
    decreases n
  {
    if n > 0 {
      RunRealKeys(accepts, l, r, steps, n - 1, atLeft);
      assert OrderlyAt(accepts, l, r, steps, n - 1);
      ExecStep(accepts, l, r, steps, n - 1);
      MailAlways(accepts, l, r, steps[..n - 1]);
      RealKeysStep(accepts, Exec(accepts, l, r, steps[..n - 1]), steps[n - 1], atLeft);
    }
  }

  /** Up to a moment at which the sender is not degraded, an orderly run is careful. */
  lemma OrderlyIsCareful(accepts: Key -> bool, l: LaneState, r: LaneState, steps: seq<Step>, n: nat, atLeft: bool)
    requires OrderlyRun(accepts, l, r, steps) && n <= |steps|
    requires !At(Exec(accepts, l, r, steps[..n]), atLeft).e.state.Degraded?
    ensures Careful(accepts, l, r, steps[..n], atLeft)
  {
    forall i | 0 <= i < n && steps[i].atLeft == atLeft
      ensures StepSafe(accepts, Exec(accepts, l, r, steps[..n][..i]), steps[..n][i])
    {
      assert OrderlyAt(accepts, l, r, steps, i);
      SafeSoFar(accepts, l, r, steps, i, n);
      SafeAlike(accepts, l, r, steps[..i], steps[..n][..i], steps[i], steps[..n][i]);
    }
  }

  lemma SafeAlike(accepts: Key -> bool, l: LaneState, r: LaneState, p: seq<Step>, q: seq<Step>, a: Step, b: Step)
    requires p == q && a == b && StepSafe(accepts, Exec(accepts, l, r, p), a)
    ensures StepSafe(accepts, Exec(accepts, l, r, q), b)
  {}

  lemma SafeSoFar(accepts: Key -> bool, l: LaneState, r: LaneState, steps: seq<Step>, i: nat, n: nat)
    requires i < n <= |steps| && OrderlyAt(accepts, l, r, steps, i)
    requires !At(Exec(accepts, l, r, steps[..n]), steps[i].atLeft).e.state.Degraded?
    ensures StepSafe(accepts, Exec(accepts, l, r, steps[..i]), steps[i])
  {
    NotYetDegraded(accepts, l, r, steps, i + 1, n, steps[i].atLeft);
    ExecStep(accepts, l, r, steps, i);
    OrderlyStepSafe(accepts, Exec(accepts, l, r, steps[..i]), steps[i]);
  }

  lemma OrderlyStepSafe(accepts: Key -> bool, s: System, step: Step)
    requires Orderly(accepts, s, step) && !At(Next(accepts, s, step), step.atLeft).e.state.Degraded?
    ensures StepSafe(accepts, s, step)
  {
    NotDegrading(accepts, s, step);
  }

  lemma NotYetDegraded(accepts: Key -> bool, l: LaneState, r: LaneState, steps: seq<Step>, i: nat, n: nat, atLeft: bool)
    requires i <= n <= |steps| && !At(Exec(accepts, l, r, steps[..n]), atLeft).e.state.Degraded?
    ensures !At(Exec(accepts, l, r, steps[..i]), atLeft).e.state.Degraded?
  {
    SplitDegraded(accepts, l, r, steps[..n], steps[..i], steps[i..n], atLeft);
  }

  lemma SplitDegraded(accepts: Key -> bool, l: LaneState, r: LaneState, steps: seq<Step>, first: seq<Step>,
                      rest: seq<Step>, atLeft: bool)
    requires steps == first + rest && !At(Exec(accepts, l, r, steps), atLeft).e.state.Degraded?
    ensures !At(Exec(accepts, l, r, first), atLeft).e.state.Degraded?
  {
    ExecThenResume(accepts, l, r, first, rest);
    StillDegraded(accepts, Exec(accepts, l, r, first), rest, atLeft);
  }

  lemma StillDegraded(accepts: Key -> bool, s: System, further: seq<Step>, atLeft: bool)
    ensures At(s, atLeft).e.state.Degraded? ==> At(Resume(accepts, s, further), atLeft).e.state.Degraded?
  {
    if At(s, atLeft).e.state.Degraded? {
      DegradedForever(accepts, s, further, atLeft, At(s, atLeft).e.configCounter);
    }
  }

  /** The requests whose keys were installed after `k`. */
  function NewerRequests(installs: seq<Config>, k: Key): set<nat> {
    set c | c in NewerThan(installs, k) :: c.counter
  }

  lemma {:induction false} NewerIsSuffix(installs: seq<Config>, k: Key)
    ensures |NewerThan(installs, k)| <= |installs|
    ensures NewerThan(installs, k) == installs[|installs| - |NewerThan(installs, k)|..]
  {
    if installs != [] && installs[|installs| - 1].key != k {
      NewerIsSuffix(installs[..|installs| - 1], k);
    }
  }

  lemma {:induction false} DistinctCounters(cs: seq<Config>)
    requires Distinct(cs)
    ensures |set c | c in cs :: c.counter| == |cs|
  {
    if cs != [] {
      var init, last := cs[..|cs| - 1], cs[|cs| - 1];
      DistinctCounters(init);
      var before := set c | c in init :: c.counter;
      assert cs == init + [last];
      assert (set c | c in cs :: c.counter) == before + {last.counter};
      assert last.counter !in before;
    }
  }

  /**
   Frames in flight: with each request delivered at most once and rotations in turn, a frame sealed at
   step `n` stays decryptable by key until the receiver installs the second newer key - and no longer.
   */
  lemma FramesInFlightStayOpenable(accepts: Key -> bool, l: LaneState, r: LaneState, steps: seq<Step>, n: nat,
                                   atLeft: bool, k: Key)
    requires OrderlyRun(accepts, l, r, steps) && DeliveredOnce(accepts, l, r, steps) && n <= |steps|
    requires var x := At(Exec(accepts, l, r, steps[..n]), atLeft);
      !x.e.state.Degraded? && x.e.currentSelf == Some(k) && k != INVALID
    ensures var y := At(Exec(accepts, l, r, steps), !atLeft);
      CanOpen(y, k) <==> |NewerRequests(y.installs, k)| <= 1
  {
    var m := |steps|;
    assert steps[..m] == steps;
    var y := At(Exec(accepts, l, r, steps), !atLeft);
    OrderlyIsCareful(accepts, l, r, steps, n, atLeft);
    EarlierKeyOpenableIff(accepts, l, r, steps, n, atLeft, k);
    RunRealKeys(accepts, l, r, steps, m, atLeft);
    RunLastTwo(accepts, l, r, steps, !atLeft);
    RunDistinct(accepts, l, r, steps, m, !atLeft);
    NewerCount(y.installs, k);
    WasInstalled(accepts, l, r, steps, n, atLeft, k);
  }

  lemma NewerCount(installs: seq<Config>, k: Key)
    requires Distinct(installs)
    ensures |NewerRequests(installs, k)| == |NewerThan(installs, k)|
  {
    NewerIsSuffix(installs, k);
    DistinctCounters(NewerThan(installs, k));
  }

  /** Something has been installed by the end, the sender's key of step `n` among it. */
  lemma WasInstalled(accepts: Key -> bool, l: LaneState, r: LaneState, steps: seq<Step>, n: nat, atLeft: bool, k: Key)
    requires n <= |steps| && Careful(accepts, l, r, steps[..n], atLeft)
    requires At(Exec(accepts, l, r, steps[..n]), atLeft).e.currentSelf == Some(k) && k != INVALID
    ensures At(Exec(accepts, l, r, steps), !atLeft).installs != []
  {
    assert steps[..|steps|] == steps && steps[..n][..n] == steps[..n];
    RunKeeps(accepts, l, r, steps[..n], n, atLeft);
    RunInstallsGrow(accepts, l, r, steps, n, |steps|, !atLeft);
  }

  /**
   So, under an ideal AEAD, a frame sealed at step `n` opens to its plaintext at the end of the run, as long
   as the receiver has installed at most one newer request by then.
   */
  lemma FrameSealedEarlierOpens(a: Cipher, honest: iset<Sealed>, e: Sealed, f: Frame, l: LaneState, r: LaneState,
                                steps: seq<Step>, n: nat, atLeft: bool)
    requires OrderlyRun(a.accepts, l, r, steps) && DeliveredOnce(a.accepts, l, r, steps) && n <= |steps|
    requires var x := At(Exec(a.accepts, l, r, steps[..n]), atLeft);
      !x.e.state.Degraded? && x.e.currentSelf == Some(e.key) && e.key != INVALID
    requires Ideal(a, honest) && e in honest && f.iv == e.iv && SealOf(a, e) == Some((f.cipherText, f.tag))
    ensures var y := At(Exec(a.accepts, l, r, steps), !atLeft);
      |NewerRequests(y.installs, e.key)| <= 1 ==> SessionSpec.OpenFrame(a, SlotsOf(y.e), f, e.aad) == Ok(e.plain)
  {
    FramesInFlightStayOpenable(a.accepts, l, r, steps, n, atLeft, e.key);
    var y := At(Exec(a.accepts, l, r, steps), !atLeft);
    if CanOpen(y, e.key) {
      SessionSpec.OpensUnderHeldKey(a, honest, SlotsOf(y.e), e, f);
    }
  }

  // ---- a run in which redelivery evicts the key in use ----

  /** What delivering a fresh enabled request does, in full, when no rotation follows it. */
  lemma InstallStep(accepts: Key -> bool, s: System, atLeft: bool, c: Config)
    requires var x := At(s, atLeft);
      c in x.inbox && !c.ack && c.enabled && Processes(accepts, x.e, c) && !MayRotate(TakeUp(x.e, c), false)
    ensures var s' := Next(accepts, s, Deliver(atLeft, c, INVALID, false));
      var x, x', y, y' := At(s, atLeft), At(s', atLeft), At(s, !atLeft), At(s', !atLeft);
      && x' == x.(e := TakeUp(x.e, c), installs := x.installs + [c])
      && y' == y.(inbox := y.inbox + {c.(ack := true)})
  {
    OneAck(c.(ack := true));
  }

  /** The left side hands over `k1` to a right side that has announced a key of its own. */
  function Handover(k1: Key, kr: Key): seq<Step> {
    var c := Config(true, false, 1, k1);
    [RotateKey(false, kr, false), RotateKey(true, k1, false), Deliver(false, c, INVALID, false),
     Deliver(true, c.(ack := true), INVALID, false)]
  }

  lemma RunFour(accepts: Key -> bool, l: LaneState, r: LaneState, steps: seq<Step>)
    requires |steps| == 4
    ensures var s := System(Start(l), Start(r));
      Exec(accepts, l, r, steps)
      == Next(accepts, Next(accepts, Next(accepts, Next(accepts, s, steps[0]), steps[1]), steps[2]), steps[3])
  {
    ExecOne(accepts, l, r, steps[0]);
    assert steps[..1] == [steps[0]] && steps[..4] == steps;
    ExecStep(accepts, l, r, steps, 1);
    ExecStep(accepts, l, r, steps, 2);
    ExecStep(accepts, l, r, steps, 3);
  }

  lemma HandedOver(accepts: Key -> bool, k1: Key, kr: Key)
    requires accepts(k1) && k1 != INVALID
    ensures var s := Exec(accepts, Inactive, Inactive, Handover(k1, kr));
      && s.left.e.currentSelf == Some(k1) && s.left.e.nextSelf == None && s.left.e.configCounter == 1
      && s.right.e.currentPeer == Some(k1) && s.right.e.stamped && s.left.e.state == s.right.e.state == Inactive
      && s.right.e.currentSelf == None && s.right.e.configCounter == 1 && s.left.e.stamped
      && {Config(true, true, 1, k1), Config(accepts(kr), false, 1, kr)} <= s.left.inbox
  {
    var steps := Handover(k1, kr);
    RunFour(accepts, Inactive, Inactive, steps);
    var s0 := System(Start(Inactive), Start(Inactive));
    BothAnnounced(accepts, s0, k1, kr);
    TakenUpAndAcknowledged(accepts, Next(accepts, Next(accepts, s0, steps[0]), steps[1]), k1);
  }

  lemma BothAnnounced(accepts: Key -> bool, s0: System, k1: Key, kr: Key)
    requires s0 == System(Start(Inactive), Start(Inactive)) && accepts(k1)
    ensures var s := Next(accepts, Next(accepts, s0, RotateKey(false, kr, false)), RotateKey(true, k1, false));
      && s.left.e == Endpoint(Inactive, 1, 0, true, None, Some(k1), None, None)
      && s.right.e.state == Inactive && s.right.e.stamped && s.right.e.currentSelf == None
      && Config(true, false, 1, k1) in s.right.inbox && Config(accepts(kr), false, 1, kr) in s.left.inbox
      && s.right.e.configCounter == 1
  {
    RotationStep(accepts, s0, false, kr, false);
    RotationStep(accepts, Next(accepts, s0, RotateKey(false, kr, false)), true, k1, false);
  }

  lemma TakenUpAndAcknowledged(accepts: Key -> bool, s: System, k1: Key)
    requires s.left.e == Endpoint(Inactive, 1, 0, true, None, Some(k1), None, None) && accepts(k1)
    requires s.right.e.state == Inactive && s.right.e.stamped && s.right.e.currentSelf == None
    requires Config(true, false, 1, k1) in s.right.inbox
    ensures var c := Config(true, false, 1, k1);
      var s' := Next(accepts, Next(accepts, s, Deliver(false, c, INVALID, false)),
                     Deliver(true, c.(ack := true), INVALID, false));
      && s'.left.e.currentSelf == Some(k1) && s'.left.e.nextSelf == None && s'.left.e.configCounter == 1
      && s'.right.e.currentPeer == Some(k1) && s'.right.e.stamped && s'.left.e.state == s'.right.e.state == Inactive
      && s'.right.e.currentSelf == None && s'.right.e.configCounter == s.right.e.configCounter && s'.left.e.stamped
      && s.left.inbox + {c.(ack := true)} <= s'.left.inbox
  {
    var c := Config(true, false, 1, k1);
    InstallStep(accepts, s, false, c);
    var s1 := Next(accepts, s, Deliver(false, c, INVALID, false));
    AnswerPromotes(accepts, s1, true, c.(ack := true));
    OtherUntouched(accepts, s1, Deliver(true, c.(ack := true), INVALID, false));
  }

  /** From there the next key is announced and its request delivered once, and once more. */
  lemma DeliveredTwice(accepts: Key -> bool, s: System, k1: Key, k2: Key)
    requires s.left.e.currentSelf == Some(k1) && s.left.e.nextSelf == None && s.left.e.configCounter == 1
    requires s.right.e.currentPeer == Some(k1) && s.right.e.stamped && s.left.e.state == s.right.e.state == Inactive
    requires s.right.e.currentSelf == None && accepts(k2) && k1 != k2 && k1 != INVALID && k2 != INVALID
    ensures var c := Config(true, false, 2, k2);
      var s1 := Next(accepts, Next(accepts, s, RotateKey(true, k2, true)), Deliver(false, c, INVALID, false));
      var s2 := Next(accepts, s1, Deliver(false, c, INVALID, false));
      && s2.left.e.currentSelf == Some(k1) && CanOpen(s1.right, k1) && !CanOpen(s2.right, k1)
  {
    var c := Config(true, false, 2, k2);
    RotationStep(accepts, s, true, k2, true);
    var s1 := Next(accepts, s, RotateKey(true, k2, true));
    InstallStep(accepts, s1, false, c);
    InstallStep(accepts, Next(accepts, s1, Deliver(false, c, INVALID, false)), false, c);
  }

  /** A run from the start: the key in use can be opened, until the pending request arrives a second time. */
  lemma RedeliveryRun(accepts: Key -> bool, k1: Key, k2: Key, kr: Key)
    requires accepts(k1) && accepts(k2) && k1 != k2 && k1 != INVALID && k2 != INVALID
    ensures var delivery := Deliver(false, Config(true, false, 2, k2), INVALID, false);
      var once := Handover(k1, kr) + [RotateKey(true, k2, true), delivery];
      var s1, s2 := Exec(accepts, Inactive, Inactive, once), Exec(accepts, Inactive, Inactive, once + [delivery]);
      && s2.left.e.currentSelf == Some(k1) && CanOpen(s1.right, k1) && !CanOpen(s2.right, k1)
  {
    var a, b := RotateKey(true, k2, true), Deliver(false, Config(true, false, 2, k2), INVALID, false);
    var h := Handover(k1, kr);
    HandedOver(accepts, k1, kr);
    DeliveredTwice(accepts, Exec(accepts, Inactive, Inactive, h), k1, k2);
    ThreeMore(accepts, Inactive, Inactive, h, a, b, b);
  }

  lemma ThreeMore(accepts: Key -> bool, l: LaneState, r: LaneState, h: seq<Step>, a: Step, b: Step, c: Step)
    ensures var s := Next(accepts, Next(accepts, Exec(accepts, l, r, h), a), b);
      && Exec(accepts, l, r, h + [a, b]) == s
      && Exec(accepts, l, r, h + [a, b] + [c]) == Next(accepts, s, c)
  {
    var steps := h + [a, b] + [c];
    var n := |h|;
    assert steps[..n] == h && steps[..n + 2] == h + [a, b] && steps[..n + 3] == steps;
    ExecStep(accepts, l, r, steps, n);
    ExecStep(accepts, l, r, steps, n + 1);
    ExecStep(accepts, l, r, steps, n + 2);
  }
}
