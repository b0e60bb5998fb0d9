/** A key becomes a sending key only once the peer can receive under it: exactly when that holds. */
module KeyHandover {
  import opened Wrappers
  import opened Aead
  import opened KeyExchange
  import opened KeyNetwork

  /**
   An exchange may be started when its AEAD can be built, or when nothing is staged that the peer
   could not already receive under, or when the peer will never answer again.
   */
  predicate StepSafe(accepts: Key -> bool, s: System, step: Step) {
    var x, y := At(s, step.atLeft), At(s, !step.atLeft);
    match Started(accepts, s, step)
    case None => true
    case Some(key) =>
      accepts(key) || !Usable(x.e.nextSelf) || Installed(y, x.e.nextSelf.value) || y.e.state.Degraded?
  }

  /** Every exchange one side starts in a run is safe. */
  ghost predicate Careful(accepts: Key -> bool, l: LaneState, r: LaneState, steps: seq<Step>, atLeft: bool) {
    forall i :: 0 <= i < |steps| && steps[i].atLeft == atLeft ==>
      StepSafe(accepts, Exec(accepts, l, r, steps[..i]), steps[i])
  }

  /** The promise for the sending key of `x`. */
  ghost predicate SendingKeyInstalled(x: Node, y: Node) {
    Usable(x.e.currentSelf) ==> Installed(y, x.e.currentSelf.value)
  }

  /**
   A staged real key the peer has not installed is not yet acknowledged, and it is the key of the
   latest request unless the peer is out of the exchange for good.
   */
  ghost predicate Answerable(x: Node, y: Node) {
    Usable(x.e.nextSelf) && !Installed(y, x.e.nextSelf.value) ==>
      && (forall c :: c in x.inbox && c.ack ==> c.counter != x.e.configCounter)
      && (y.e.state.Degraded? ||
          forall c :: c in y.inbox && !c.ack && c.counter == x.e.configCounter ==>
            c.enabled && c.key == x.e.nextSelf.value)
  }

  ghost predicate Dir(x: Node, y: Node) {
    Mail(x, y) && Mail(y, x) && Answerable(x, y) && SendingKeyInstalled(x, y)
  }

  lemma OwnKeeps(accepts: Key -> bool, x: Node, x': Node, y: Node, y': Node, started: Option<Key>)
    requires Dir(x, y) && Acted(accepts, x, x', y, y', started)
    requires started.Some? ==>
               accepts(started.value) || !Usable(x.e.nextSelf) || Installed(y, x.e.nextSelf.value) ||
                 y.e.state.Degraded?
    ensures Answerable(x', y') && SendingKeyInstalled(x', y')
  {}

  /** A step of the peer only adds installs, and acknowledges only what it has installed. */
  lemma PeerKeeps(accepts: Key -> bool, x: Node, x': Node, y: Node, y': Node, started: Option<Key>,
                  taken: Option<Config>)
    requires Dir(x, y) && Stepped(accepts, y, y', x, x', started, taken)
    ensures Answerable(x', y') && SendingKeyInstalled(x', y')
  {
    InstallsGrow(y, y', taken);
  }

  lemma InstallsGrow(y: Node, y': Node, taken: Option<Config>)
    requires y'.installs == y.installs + if taken.Some? then [taken.value] else []
    ensures forall k :: Installed(y, k) ==> Installed(y', k)
    ensures taken.Some? ==> Installed(y', taken.value.key)
  {
    forall k | Installed(y, k) ensures Installed(y', k) {
      var i :| 0 <= i < |y.installs| && y.installs[i].key == k;
      assert y'.installs[i].key == k;
    }
    if taken.Some? {
      assert y'.installs[|y.installs|] == taken.value;
    }
  }

  lemma NextKeeps(accepts: Key -> bool, s: System, s': System, step: Step, atLeft: bool)
    requires Dir(At(s, atLeft), At(s, !atLeft)) && (step.atLeft == atLeft ==> StepSafe(accepts, s, step))
    requires s' == Next(accepts, s, step)
    ensures Dir(At(s', atLeft), At(s', !atLeft))
  {
    var x, x', y, y' := At(s, atLeft), At(s', atLeft), At(s, !atLeft), At(s', !atLeft);
    MailStep(accepts, s, step);
    StepActs(accepts, s, step);
    if step.atLeft == atLeft {
      OwnKeeps(accepts, x, x', y, y', Started(accepts, s, step));
    } else {
      PeerKeeps(accepts, x, x', y, y', Started(accepts, s, step), Taken(accepts, s, step));
    }
  }

  lemma {:induction false} RunKeeps(accepts: Key -> bool, l: LaneState, r: LaneState, steps: seq<Step>, n: nat,
                                    atLeft: bool)
    requires Careful(accepts, l, r, steps, atLeft) && n <= |steps|
    ensures var s := Exec(accepts, l, r, steps[..n]); Dir(At(s, atLeft), At(s, !atLeft))
    decreases n
  {
    if n > 0 {
      RunKeeps(accepts, l, r, steps, n - 1, atLeft);
      ExecStep(accepts, l, r, steps, n - 1);
      NextKeeps(accepts, Exec(accepts, l, r, steps[..n - 1]), Exec(accepts, l, r, steps[..n]), steps[n - 1], atLeft);
    }
  }

  lemma {:induction false} ResumeKeeps(accepts: Key -> bool, s: System, further: seq<Step>, atLeft: bool)
    requires Dir(At(s, atLeft), At(s, !atLeft)) && StartsNothing(accepts, s, further, atLeft)
    ensures var s' := Resume(accepts, s, further); Dir(At(s', atLeft), At(s', !atLeft))
    decreases |further|
  {
    if further != [] {
      NextKeeps(accepts, s, Next(accepts, s, further[0]), further[0], atLeft);
      ResumeKeeps(accepts, Next(accepts, s, further[0]), further[1..], atLeft);
    }
  }

  /** When AEADs can always be built every run is careful. */
  lemma AlwaysCareful(accepts: Key -> bool, l: LaneState, r: LaneState, steps: seq<Step>, atLeft: bool)
    requires forall k :: accepts(k)
    ensures Careful(accepts, l, r, steps, atLeft)
  {}

  // ---- an unsafe start can always be driven to failure ----

  /** The network delivers the failed request, and then its acknowledgement. */
  function Answered(atLeft: bool, request: Config): seq<Step> {
    [Deliver(!atLeft, request, INVALID, false), Deliver(atLeft, request.(ack := true), INVALID, false)]
  }

  /** After a start whose AEAD could not be built, with a peer that still answers. */
  ghost predicate FailedStart(accepts: Key -> bool, x: Node, y: Node, request: Config) {
    && !request.ack && !request.enabled && request.counter == x.e.configCounter && request in y.inbox
    && !y.e.state.Degraded? && Supported(x.e)
  }

  lemma FailedStarts(accepts: Key -> bool, s: System, step: Step) returns (request: Config)
    requires Mail(At(s, step.atLeft), At(s, !step.atLeft)) && !At(s, !step.atLeft).e.state.Degraded?
    requires Started(accepts, s, step).Some? && !accepts(Started(accepts, s, step).value)
    ensures var s' := Next(accepts, s, step);
      var x, x', y, y' := At(s, step.atLeft), At(s', step.atLeft), At(s, !step.atLeft), At(s', !step.atLeft);
      && FailedStart(accepts, x', y', request)
        && Announced(accepts, x, x', y', Started(accepts, s, step).value, request)
      && y'.installs == y.installs
  {
    StepActs(accepts, s, step);
    var s' := Next(accepts, s, step);
    var x, x', y, y' := At(s, step.atLeft), At(s', step.atLeft), At(s, !step.atLeft), At(s', !step.atLeft);
    request :| Announced(accepts, x, x', y', Started(accepts, s, step).value, request)
            && Carried(x, x', y, y', {request});
    assert request !in y.inbox;
    StartDisables(accepts, s, step, request);
  }

  /** A request announced without an AEAD is marked disabled. */
  lemma StartDisables(accepts: Key -> bool, s: System, step: Step, request: Config)
    requires Started(accepts, s, step).Some? && !accepts(Started(accepts, s, step).value) && !request.ack
    requires request in At(Next(accepts, s, step), !step.atLeft).inbox && request !in At(s, !step.atLeft).inbox
    ensures !request.enabled && Supported(At(Next(accepts, s, step), step.atLeft).e)
  {
    var x, y := At(s, step.atLeft), At(s, !step.atLeft);
    match step
    case RotateKey(_, key, elapsed) => NewInMail(y, Rotate(accepts, x.e, key, elapsed), request);
    case GoDegraded(_) => NewInMail(y, Degrade(accepts, x.e), request);
    case Deliver(_, c, key, elapsed) => NewInMail(y, HandleRequest(accepts, x.e, c, key, elapsed), request);
    case Fire(_, c) =>
  }

  lemma NewInMail(y: Node, f: Effect, request: Config)
    requires request in Reached(y, f).inbox && request !in y.inbox
    ensures request in f.sent
  {}

  lemma PeerAnswers(accepts: Key -> bool, s: System, atLeft: bool, request: Config)
    requires FailedStart(accepts, At(s, atLeft), At(s, !atLeft), request)
    ensures var s' := Next(accepts, s, Deliver(!atLeft, request, INVALID, false));
      && request.(ack := true) in At(s', atLeft).inbox
        && At(s', atLeft) == At(s, atLeft).(inbox := At(s', atLeft).inbox)
      && At(s', !atLeft).installs == At(s, !atLeft).installs
  {}

  lemma AnswerPromotes(accepts: Key -> bool, s: System, atLeft: bool, c: Config)
    requires c in At(s, atLeft).inbox && c.ack && c.counter == At(s, atLeft).e.configCounter
    ensures var s' := Next(accepts, s, Deliver(atLeft, c, INVALID, false));
      var x, x' := At(s, atLeft), At(s', atLeft);
      && x'.e == HandleAck(x.e, c) && x'.inbox == x.inbox && x'.pending == x.pending && x'.sent == x.sent
      && At(s', !atLeft).installs == At(s, !atLeft).installs
      && Started(accepts, s, Deliver(atLeft, c, INVALID, false)) == None
  {}

  lemma TwoSteps(accepts: Key -> bool, s: System, a: Step, b: Step)
    ensures Resume(accepts, s, [a, b]) == Next(accepts, Next(accepts, s, a), b)
  {
    assert [a, b][1..] == [b] && [b][1..] == [];
    assert Resume(accepts, Next(accepts, s, a), [b]) == Resume(accepts, Next(accepts, Next(accepts, s, a), b), []);
  }

  lemma TwoStepsStartNothing(accepts: Key -> bool, s: System, a: Step, b: Step, atLeft: bool)
    requires a.atLeft == atLeft ==> Started(accepts, s, a).None?
    requires b.atLeft == atLeft ==> Started(accepts, Next(accepts, s, a), b).None?
    ensures StartsNothing(accepts, s, [a, b], atLeft)
  {
    assert [a, b][1..] == [b] && [b][1..] == [];
    var s1 := Next(accepts, s, a);
    assert StartsNothing(accepts, Next(accepts, s1, b), [], atLeft);
    assert StartsNothing(accepts, s1, [b], atLeft);
  }

  /** Delivering a failed request and its acknowledgement puts into use whatever is staged. */
  lemma AnsweredFailure(accepts: Key -> bool, s: System, atLeft: bool, request: Config)
    requires FailedStart(accepts, At(s, atLeft), At(s, !atLeft), request)
    ensures var s' := Resume(accepts, s, Answered(atLeft, request));
      var x, x' := At(s, atLeft), At(s', atLeft);
      && x'.e == HandleAck(x.e, request.(ack := true)) && x'.pending == x.pending && x'.sent == x.sent
      && request.(ack := true) in x'.inbox && At(s', !atLeft).installs == At(s, !atLeft).installs
    ensures StartsNothing(accepts, s, Answered(atLeft, request), atLeft)
  {
    var steps := Answered(atLeft, request);
    PeerAnswers(accepts, s, atLeft, request);
    AnswerPromotes(accepts, Next(accepts, s, steps[0]), atLeft, request.(ack := true));
    TwoSteps(accepts, s, steps[0], steps[1]);
    TwoStepsStartNothing(accepts, s, steps[0], steps[1], atLeft);
  }

  /**
   From any state with its mail in order, after an unsafe start two deliveries make a key the peer has
   never installed the sending key.
   */
  lemma UnsafeStartBreaks(accepts: Key -> bool, s: System, step: Step) returns (further: seq<Step>)
    requires Mail(At(s, step.atLeft), At(s, !step.atLeft)) && !StepSafe(accepts, s, step)
    ensures var s1 := Next(accepts, s, step);
      var s2 := Resume(accepts, s1, further);
      && StartsNothing(accepts, s1, further, step.atLeft)
      && !SendingKeyInstalled(At(s2, step.atLeft), At(s2, !step.atLeft))
  {
    var request := FailedStarts(accepts, s, step);
    further := Answered(step.atLeft, request);
    UninstalledIsPromoted(accepts, Next(accepts, s, step), step.atLeft, request);
  }

  lemma UninstalledIsPromoted(accepts: Key -> bool, s: System, atLeft: bool, request: Config)
    requires FailedStart(accepts, At(s, atLeft), At(s, !atLeft), request)
    requires Usable(At(s, atLeft).e.nextSelf) && !Installed(At(s, !atLeft), At(s, atLeft).e.nextSelf.value)
    ensures StartsNothing(accepts, s, Answered(atLeft, request), atLeft)
    ensures var s' := Resume(accepts, s, Answered(atLeft, request));
        !SendingKeyInstalled(At(s', atLeft), At(s', !atLeft))
  {
    AnsweredFailure(accepts, s, atLeft, request);
  }

  /** Whatever one side's steps have been, as long as it starts nothing more its sending key is installed. */
  ghost predicate Promise(accepts: Key -> bool, s: System, atLeft: bool) {
    forall further :: StartsNothing(accepts, s, further, atLeft) ==>
      var s' := Resume(accepts, s, further); SendingKeyInstalled(At(s', atLeft), At(s', !atLeft))
  }

  /**
   Under any loss, duplication and reordering, a real key is a sending key only after the peer has
   installed that very key for receiving - all along a run and in everything the network can still
   make of it - exactly when every exchange started in the run was safe.
   */
  lemma SendingKeyIsInstalled(accepts: Key -> bool, l: LaneState, r: LaneState, steps: seq<Step>, atLeft: bool)
    ensures Careful(accepts, l, r, steps, atLeft) <==>
            forall n :: 0 <= n <= |steps| ==> Promise(accepts, Exec(accepts, l, r, steps[..n]), atLeft)
  {
    if Careful(accepts, l, r, steps, atLeft) {
      forall n | 0 <= n <= |steps| ensures Promise(accepts, Exec(accepts, l, r, steps[..n]), atLeft) {
        RunKeeps(accepts, l, r, steps, n, atLeft);
        DirPromises(accepts, Exec(accepts, l, r, steps[..n]), atLeft);
      }
    } else {
      var i :| 0 <= i < |steps| && steps[i].atLeft == atLeft
          && !StepSafe(accepts, Exec(accepts, l, r, steps[..i]), steps[i]);
      MailAlways(accepts, l, r, steps[..i]);
      ExecStep(accepts, l, r, steps, i);
      BrokenPromise(accepts, Exec(accepts, l, r, steps[..i]), steps[i]);
      assert !Promise(accepts, Exec(accepts, l, r, steps[..i + 1]), atLeft);
    }
  }

  lemma DirPromises(accepts: Key -> bool, s: System, atLeft: bool)
    requires Dir(At(s, atLeft), At(s, !atLeft))
    ensures Promise(accepts, s, atLeft)
  {
    forall further | StartsNothing(accepts, s, further, atLeft)
      ensures var s' := Resume(accepts, s, further); SendingKeyInstalled(At(s', atLeft), At(s', !atLeft))
    {
      ResumeKeeps(accepts, s, further, atLeft);
    }
  }

  lemma BrokenPromise(accepts: Key -> bool, s: System, step: Step)
    requires Mail(At(s, step.atLeft), At(s, !step.atLeft)) && !StepSafe(accepts, s, step)
    ensures !Promise(accepts, Next(accepts, s, step), step.atLeft)
  {
    var further := UnsafeStartBreaks(accepts, s, step);
  }

  lemma CarefulRunInstalls(accepts: Key -> bool, l: LaneState, r: LaneState, steps: seq<Step>, atLeft: bool)
    ensures Careful(accepts, l, r, steps, atLeft) ==>
              var s := Exec(accepts, l, r, steps); SendingKeyInstalled(At(s, atLeft), At(s, !atLeft))
  {
    if Careful(accepts, l, r, steps, atLeft) {
      RunKeeps(accepts, l, r, steps, |steps|, atLeft);
      assert steps[..|steps|] == steps;
    }
  }

  /** With AEADs that can be built, the promise holds in every run. */
  lemma BuiltKeysAreInstalled(accepts: Key -> bool, l: LaneState, r: LaneState, steps: seq<Step>, atLeft: bool)
    requires forall k :: accepts(k)
    ensures var s := Exec(accepts, l, r, steps); SendingKeyInstalled(At(s, atLeft), At(s, !atLeft))
  {
    AlwaysCareful(accepts, l, r, steps, atLeft);
    CarefulRunInstalls(accepts, l, r, steps, atLeft);
  }

  /** A run that breaks it: a key is staged, the next one cannot be built, and its request is acknowledged. */
  lemma StagedFailureRun(accepts: Key -> bool, staged: Key, bad: Key)
    requires accepts(staged) && staged != INVALID && !accepts(bad)
    ensures var request := Config(false, false, 2, bad);
      var s := Exec(accepts, Inactive, Inactive,
                    [RotateKey(true, staged, false), RotateKey(true, bad, true)] + Answered(true, request));
      s.left.e.currentSelf == Some(staged) && s.right.installs == []
  {
    var both, request := [RotateKey(true, staged, false), RotateKey(true, bad, true)], Config(false, false, 2, bad);
    StagedThenFailed(accepts, staged, bad);
    AnsweredFailure(accepts, Exec(accepts, Inactive, Inactive, both), true, request);
    ExecThenResume(accepts, Inactive, Inactive, both, Answered(true, request));
  }

  lemma StagedThenFailed(accepts: Key -> bool, staged: Key, bad: Key)
    requires accepts(staged) && staged != INVALID && !accepts(bad)
    ensures var s := Exec(accepts, Inactive, Inactive, [RotateKey(true, staged, false), RotateKey(true, bad, true)]);
      && FailedStart(accepts, s.left, s.right, Config(false, false, 2, bad))
      && s.left.e.nextSelf == Some(staged) && s.right.installs == []
  {
    var a, b := RotateKey(true, staged, false), RotateKey(true, bad, true);
    ExecOne(accepts, Inactive, Inactive, a);
    assert [a, b][..1] == [a];
    RotationStep(accepts, System(Start(Inactive), Start(Inactive)), true, staged, false);
    RotationStep(accepts, Exec(accepts, Inactive, Inactive, [a]), true, bad, true);
  }

  // ---- the objects themselves ----

  /**
   Two connections wired to such a network: the handlers do the work, the network carries what they put
   out, and whatever the order of events, and whatever versions the frames carry, the pair ends up where
   the step system says.
   */
  method Drive(accepts: Key -> bool, l: LaneState, r: LaneState, steps: seq<Step>, maxVersion: nat,
               versions: seq<nat>, dataSent: seq<bool>)
    returns (left: Connection, right: Connection, s: System)
    requires |versions| == |dataSent| == |steps|
    ensures s == Exec(accepts, l, r, steps) && left.Meaning() == s.left.e && right.Meaning() == s.right.e
    ensures Careful(accepts, l, r, steps, true) ==> SendingKeyInstalled(s.left, s.right)
    ensures Careful(accepts, l, r, steps, false) ==> SendingKeyInstalled(s.right, s.left)
  {
    left := new Connection(accepts, maxVersion, l, true);
    right := new Connection(accepts, maxVersion, r, true);
    s := System(Start(l), Start(r));
    for i := 0 to |steps|
      invariant left != right && left.online && right.online && left.accepts == accepts && right.accepts == accepts
      invariant s == Exec(accepts, l, r, steps[..i]) && left.Meaning() == s.left.e && right.Meaning() == s.right.e
    {
      ExecStep(accepts, l, r, steps, i);
      s := Perform(accepts, if steps[i].atLeft then left else right, s, steps[i], versions[i], dataSent[i]);
    }
    assert steps[..|steps|] == steps;
    CarefulRunInstalls(accepts, l, r, steps, true);
    CarefulRunInstalls(accepts, l, r, steps, false);
  }

  /** One event at one connection. */
  method Perform(accepts: Key -> bool, conn: Connection, s: System, step: Step, version: nat, dataSent: bool)
    returns (s': System)
    requires conn.online && conn.accepts == accepts && conn.Meaning() == At(s, step.atLeft).e
    modifies conn
    ensures s' == Next(accepts, s, step) && conn.Meaning() == At(s', step.atLeft).e && conn.online
  {
    var x, sent, ticks := At(s, step.atLeft), |conn.sent|, |conn.ticks|;
    match step {
      case RotateKey(_, key, elapsed) => var _ := conn.RotateExpresslaneKey(key, elapsed);
      case GoDegraded(_) =>
        if !Ready(x.e) {
          return s;
        }
        conn.SetExpresslaneDegraded();
      case Deliver(_, c, key, elapsed) =>
        if c !in x.inbox {
          return s;
        }
        x := Installing(accepts, x, c);
        var _ := conn.HandleExpresslaneConfig(c, version, dataSent, key, elapsed);
      case Fire(_, c) =>
        if c !in x.pending {
          return s;
        }
        x := x.(pending := x.pending - multiset{c});
        var _ := conn.ExpresslaneKeyShareTick(c, version);
    }
    s' := Run(s, step.atLeft, x, Effect(conn.Meaning(), conn.sent[sent..], conn.ticks[ticks..]));
  }
}
