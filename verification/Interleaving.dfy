/**
 Many threads receiving on one session. The locks are taken separately, so a receive is six atomic
 steps - arrival, preview, reading the version, open, commit, count - and rotations, version changes
 and other receives may fall between any two of them.
 */
module Interleaving {
  import opened OnesComplement
  import opened Words
  import opened Wrappers
  import opened Aead
  import opened Frames
  import opened ReplaySpec
  import opened SessionSpec

  /** A frame that opened: under which of the keys held then, over which associated data, to what. */
  datatype Opening = Opening(frame: Frame, key: Key, slots: Keys, version: Version, plain: Bytes)

  datatype Phase =
    | Idle
    | Arrived(frame: Frame)
    | Previewed(frame: Frame)
    | Bound(frame: Frame, version: Version)
    | Opened(opening: Opening)
    | Committed(opening: Opening)

  /** The session, where every thread stands, and what has happened so far. */
  datatype System = System(
    session: State,
    threads: map<nat, Phase>,
    installed: set<Key>,                 // every receive key ever installed
    attempts: seq<nat>,                  // counters in the order their commits took the lock
    evidence: map<nat, Opening>,         // for each committed counter, the opening that led to it
    delivered: seq<nat>,                 // counters of receives that returned success
    cleared: set<Version>)               // versions whose change was checked and not yet stored

  datatype Step =
    | Arrive(t: nat, bytes: Bytes)
    | Preview(t: nat)
    | Bind(t: nat)
    | Open(t: nat)
    | Commit(t: nat)
    | Count(t: nat)
    | InstallPeerKey(key: Key)
    | CheckVersion(v: Version)
    | StoreVersion(v: Version)
    | ReserveCounter

  function PhaseOf(s: System, t: nat): Phase {
    if t in s.threads then s.threads[t] else Idle
  }

  function Move(s: System, t: nat, p: Phase): System {
    s.(threads := s.threads[t := p])
  }

  function Init(v: Version): System {
    System(State(v, 0, 0, EMPTY, Keys(None, None, None, None), false, false), map[], {}, [], map[], [], {})
  }

  /** The key that opened, following the order in which the slots are tried. */
  function OpeningKey(a: Cipher, keys: Keys, f: Frame, aad: Bytes): Key
    requires OpenFrame(a, keys, f, aad).Ok?
  {
    if a.open(keys.currentPeer.value, f.iv, f.cipherText, aad, f.tag).Some? then keys.currentPeer.value
        else keys.prevPeer.value
  }

  function OpenOutcome(a: Cipher, sid: SessionId, keys: Keys, f: Frame, version: Version): Phase {
    var aad := BuildAad(version, sid, f.counter, f.flags);
    var r := OpenFrame(a, keys, f, aad);
    if r.Ok? then Opened(Opening(f, OpeningKey(a, keys, f, aad), keys, version, r.value)) else Idle
  }

  function CommitStep(s: System, t: nat, o: Opening): System {
    var c := o.frame.counter as nat;
    if Admits(s.session.window, c)
    then Move(s, t, Committed(o)).(session := s.session.(window := Admit(s.session.window, c)),
                                   attempts := s.attempts + [c], evidence := s.evidence[c := o])
    else Move(s, t, Idle).(attempts := s.attempts + [c])
  }

  function CountStep(s: System, t: nat, o: Opening): System {
    Move(s, t, Idle).(session := s.session.(received := Increment(s.session.received)),
                      delivered := s.delivered + [o.frame.counter])
  }

  /** One atomic step; a step whose thread is not ready for it changes nothing. */
  function Next(a: Cipher, sid: SessionId, s: System, step: Step): System {
    match step
    case Arrive(t, bytes) =>
      if PhaseOf(s, t).Idle? && Parse(bytes).Ok? then Move(s, t, Arrived(Parse(bytes).value)) else s
    case Preview(t) =>
      if !PhaseOf(s, t).Arrived? then s
      else
        var f := PhaseOf(s, t).frame;
        Move(s, t, if Admits(s.session.window, f.counter) then Previewed(f) else Idle)
    case Bind(t) =>
      if !PhaseOf(s, t).Previewed? then s else Move(s, t, Bound(PhaseOf(s, t).frame, s.session.version))
    case Open(t) =>
      if !PhaseOf(s, t).Bound? then s
      else Move(s, t, OpenOutcome(a, sid, s.session.keys, PhaseOf(s, t).frame, PhaseOf(s, t).version))
    case Commit(t) => if !PhaseOf(s, t).Opened? then s else CommitStep(s, t, PhaseOf(s, t).opening)
    case Count(t) => if !PhaseOf(s, t).Committed? then s else CountStep(s, t, PhaseOf(s, t).opening)
    case InstallPeerKey(key) =>
      if !a.accepts(key) then s
      else
        s.(session := s.session.(
             keys := s.session.keys.(currentPeer := Some(key), prevPeer := s.session.keys.currentPeer),
                                 hasPeer := key != INVALID),
           installed := s.installed + {key})
    case CheckVersion(v) => if s.session.wireCounter > 0 then s else s.(cleared := s.cleared + {v})
    case StoreVersion(v) =>
      if v !in s.cleared then s else s.(session := s.session.(version := v), cleared := s.cleared - {v})
    case ReserveCounter => s.(session := s.session.(wireCounter := Increment(s.session.wireCounter)))
  }

  function Exec(a: Cipher, sid: SessionId, v: Version, steps: seq<Step>): System {
    if steps == [] then Init(v)
    else Next(a, sid, Exec(a, sid, v, steps[..|steps| - 1]), steps[|steps| - 1])
  }

  // ---- the invariant ----

  /** An opening is genuine: the AEAD opened it under a real key then held, one that had been installed. */
  ghost predicate Genuine(a: Cipher, sid: SessionId, installed: set<Key>, o: Opening) {
    && o.key in installed && Holds(o.slots, o.key)
    && a.open(o.key, o.frame.iv, o.frame.cipherText, BuildAad(o.version, sid, o.frame.counter, o.frame.flags),
      o.frame.tag)
       == Some(o.plain)
  }

  /** Threads between a successful commit and counting it, with the counter each holds. */
  function Holders(s: System): map<nat, nat> {
    map t | t in s.threads && s.threads[t].Committed? :: s.threads[t].opening.frame.counter as nat
  }

  predicate NoDuplicates(xs: seq<nat>) {
    forall i, j :: 0 <= i < j < |xs| ==> xs[i] != xs[j]
  }

  ghost predicate SlotsInstalled(s: System) {
    && (s.session.keys.currentPeer.Some? ==> s.session.keys.currentPeer.value in s.installed)
    && (s.session.keys.prevPeer.Some? ==> s.session.keys.prevPeer.value in s.installed)
  }

  ghost predicate OpeningsGenuine(a: Cipher, sid: SessionId, s: System) {
    && (forall t :: t in s.threads && (s.threads[t].Opened? || s.threads[t].Committed?) ==>
          Genuine(a, sid, s.installed, s.threads[t].opening))
    && (forall c :: c in s.evidence ==> Genuine(a, sid, s.installed, s.evidence[c]) && s.evidence[c].frame.counter == c)
  }

  /** Each committed counter is either delivered once or held by exactly one uncounted thread. */
  ghost predicate Accounted(delivered: seq<nat>, holders: map<nat, nat>, committed: set<nat>) {
    && NoDuplicates(delivered)
    && (forall c :: c in delivered ==> c in committed)
    && (forall t :: t in holders ==> holders[t] in committed && holders[t] !in delivered)
    && (forall t, u :: t in holders && u in holders && t != u ==> holders[t] != holders[u])
    && |delivered| + |holders| == |committed|
  }

  lemma HolderJoins(delivered: seq<nat>, holders: map<nat, nat>, committed: set<nat>, t: nat, c: nat)
    requires Accounted(delivered, holders, committed) && t !in holders && c !in committed
    ensures Accounted(delivered, holders[t := c], committed + {c})
  {}

  lemma HolderDelivers(delivered: seq<nat>, holders: map<nat, nat>, committed: set<nat>, t: nat)
    requires Accounted(delivered, holders, committed) && t in holders
    ensures Accounted(delivered + [holders[t]], holders - {t}, committed)
  {}

  ghost predicate Inv(a: Cipher, sid: SessionId, s: System) {
    && SlotsInstalled(s)
    && OpeningsGenuine(a, sid, s)
    && s.session.window == Run(s.attempts)
    && s.evidence.Keys == s.session.window.seen
    && Accounted(s.delivered, Holders(s), s.evidence.Keys)
    && s.session.received == |s.delivered| % 0x1_0000_0000_0000_0000
  }

  lemma HoldersMove(s: System, t: nat, p: Phase)
    ensures !PhaseOf(s, t).Committed? && !p.Committed? ==> Holders(Move(s, t, p)) == Holders(s)
    ensures p.Committed? ==> Holders(Move(s, t, p)) == Holders(s)[t := p.opening.frame.counter]
    ensures !p.Committed? ==> Holders(Move(s, t, p)) == Holders(s) - {t}
  {}

  lemma GenuineMove(a: Cipher, sid: SessionId, s: System, t: nat, p: Phase)
    requires OpeningsGenuine(a, sid, s)
    requires p.Opened? || p.Committed? ==> Genuine(a, sid, s.installed, p.opening)
    ensures OpeningsGenuine(a, sid, Move(s, t, p))
  {}

  /** A thread that neither holds nor gains a committed counter moves freely. */
  lemma MoveKeeps(a: Cipher, sid: SessionId, s: System, t: nat, p: Phase)
    requires Inv(a, sid, s) && !PhaseOf(s, t).Committed? && !p.Committed?
    requires p.Opened? ==> Genuine(a, sid, s.installed, p.opening)
    ensures Inv(a, sid, Move(s, t, p))
  {
    HoldersMove(s, t, p);
    GenuineMove(a, sid, s, t, p);
  }

  lemma OpenKeeps(a: Cipher, sid: SessionId, s: System, t: nat, f: Frame, version: Version)
    requires Inv(a, sid, s) && PhaseOf(s, t) == Bound(f, version)
    ensures Inv(a, sid, Move(s, t, OpenOutcome(a, sid, s.session.keys, f, version)))
  {
    MoveKeeps(a, sid, s, t, OpenOutcome(a, sid, s.session.keys, f, version));
  }

  lemma AttemptRuns(s: System, c: nat)
    requires s.session.window == Run(s.attempts)
    ensures Admit(s.session.window, c) == Run(s.attempts + [c])
    ensures Admits(s.session.window, c) ==> c !in s.session.window.seen
  {
    assert (s.attempts + [c])[..|s.attempts|] == s.attempts;
    RunShape(s.attempts);
  }

  lemma CommitKeeps(a: Cipher, sid: SessionId, s: System, t: nat, o: Opening)
    requires Inv(a, sid, s) && PhaseOf(s, t) == Opened(o)
    ensures Inv(a, sid, CommitStep(s, t, o))
  {
    if Admits(s.session.window, o.frame.counter) {
      CommittedGenuine(a, sid, s, t, o);
      CommittedAccounted(s, t, o);
      AttemptRuns(s, o.frame.counter);
    } else {
      MoveKeeps(a, sid, s, t, Idle);
      RejectionKeeps(a, sid, Move(s, t, Idle), o.frame.counter);
    }
  }

  lemma CommittedGenuine(a: Cipher, sid: SessionId, s: System, t: nat, o: Opening)
    requires Inv(a, sid, s) && PhaseOf(s, t) == Opened(o) && Admits(s.session.window, o.frame.counter)
    ensures OpeningsGenuine(a, sid, CommitStep(s, t, o))
  {
    GenuineMove(a, sid, s, t, Committed(o));
    EvidenceGenuine(a, sid, Move(s, t, Committed(o)), CommitStep(s, t, o), o.frame.counter, o);
  }

  lemma CommittedAccounted(s: System, t: nat, o: Opening)
    requires s.session.window == Run(s.attempts) && s.evidence.Keys == s.session.window.seen
    requires Accounted(s.delivered, Holders(s), s.evidence.Keys)
    requires PhaseOf(s, t) == Opened(o) && Admits(s.session.window, o.frame.counter)
    ensures var s' := CommitStep(s, t, o);
      && s'.evidence.Keys == s.evidence.Keys + {o.frame.counter as nat}
      && Accounted(s'.delivered, Holders(s'), s'.evidence.Keys)
  {
    AttemptRuns(s, o.frame.counter);
    HoldersMove(s, t, Committed(o));
    SameHolders(CommitStep(s, t, o), Move(s, t, Committed(o)));
    HolderJoins(s.delivered, Holders(s), s.evidence.Keys, t, o.frame.counter);
  }

  lemma RejectionKeeps(a: Cipher, sid: SessionId, s: System, c: nat)
    requires Inv(a, sid, s) && !Admits(s.session.window, c)
    ensures Inv(a, sid, s.(attempts := s.attempts + [c]))
  {
    AttemptRuns(s, c);
    SameHolders(s, s.(attempts := s.attempts + [c]));
  }

  lemma SameHolders(s: System, s': System)
    requires s.threads == s'.threads
    ensures Holders(s) == Holders(s')
  {}

  lemma EvidenceGenuine(a: Cipher, sid: SessionId, s: System, s': System, c: nat, o: Opening)
    requires OpeningsGenuine(a, sid, s) && Genuine(a, sid, s.installed, o) && o.frame.counter == c
    requires s'.threads == s.threads && s'.installed == s.installed && s'.evidence == s.evidence[c := o]
    ensures OpeningsGenuine(a, sid, s')
  {}

  lemma IncrementCounts(received: U64, n: nat)
    requires received == n % 0x1_0000_0000_0000_0000
    ensures Increment(received) == (n + 1) % 0x1_0000_0000_0000_0000
  {}

  lemma CountAccounted(s: System, t: nat, o: Opening)
    requires Accounted(s.delivered, Holders(s), s.evidence.Keys) && PhaseOf(s, t) == Committed(o)
    ensures var s' := CountStep(s, t, o); Accounted(s'.delivered, Holders(s'), s'.evidence.Keys)
  {
    HoldersMove(s, t, Idle);
    SameHolders(CountStep(s, t, o), Move(s, t, Idle));
    HolderDelivers(s.delivered, Holders(s), s.evidence.Keys, t);
    assert Holders(s)[t] == o.frame.counter as nat;
  }

  lemma CountGenuine(a: Cipher, sid: SessionId, s: System, t: nat, o: Opening)
    requires OpeningsGenuine(a, sid, s)
    ensures OpeningsGenuine(a, sid, CountStep(s, t, o))
  {
    GenuineMove(a, sid, s, t, Idle);
  }

  lemma CountKeeps(a: Cipher, sid: SessionId, s: System, t: nat, o: Opening)
    requires Inv(a, sid, s) && PhaseOf(s, t) == Committed(o)
    ensures Inv(a, sid, CountStep(s, t, o))
  {
    var s' := CountStep(s, t, o);
    assert Accounted(s'.delivered, Holders(s'), s'.evidence.Keys) by {
      CountAccounted(s, t, o);
    }
    assert OpeningsGenuine(a, sid, s') by {
      CountGenuine(a, sid, s, t, o);
    }
    assert s'.session.received == |s'.delivered| % 0x1_0000_0000_0000_0000 by {
      IncrementCounts(s.session.received, |s.delivered|);
    }
  }

  /** Steps outside the receive path. */
  predicate Elsewhere(step: Step) {
    step.InstallPeerKey? || step.CheckVersion? || step.StoreVersion? || step.ReserveCounter?
  }

  lemma ReceiveStepKeeps(a: Cipher, sid: SessionId, s: System, step: Step)
    requires Inv(a, sid, s) && !Elsewhere(step)
    ensures Inv(a, sid, Next(a, sid, s, step))
  {
    match step
    case Arrive(t, bytes) =>
      if PhaseOf(s, t).Idle? && Parse(bytes).Ok? {
        MoveKeeps(a, sid, s, t, Arrived(Parse(bytes).value));
      }
    case Preview(t) =>
      if PhaseOf(s, t).Arrived? {
        var f := PhaseOf(s, t).frame;
        MoveKeeps(a, sid, s, t, if Admits(s.session.window, f.counter) then Previewed(f) else Idle);
      }
    case Bind(t) =>
      if PhaseOf(s, t).Previewed? {
        MoveKeeps(a, sid, s, t, Bound(PhaseOf(s, t).frame, s.session.version));
      }
    case Open(t) =>
      if PhaseOf(s, t).Bound? {
        OpenKeeps(a, sid, s, t, PhaseOf(s, t).frame, PhaseOf(s, t).version);
      }
    case Commit(t) =>
      if PhaseOf(s, t).Opened? {
        CommitKeeps(a, sid, s, t, PhaseOf(s, t).opening);
      }
    case Count(t) =>
      if PhaseOf(s, t).Committed? {
        CountKeeps(a, sid, s, t, PhaseOf(s, t).opening);
      }
  }

  /** Steps outside the receive path only grow the installed keys. */
  lemma OtherKeeps(a: Cipher, sid: SessionId, s: System, s': System)
    requires Inv(a, sid, s) && SlotsInstalled(s') && s.installed <= s'.installed
    requires s'.threads == s.threads && s'.attempts == s.attempts && s'.evidence == s.evidence
        && s'.delivered == s.delivered
    requires s'.session.window == s.session.window && s'.session.received == s.session.received
    ensures Inv(a, sid, s')
  {
    assert Holders(s') == Holders(s);
  }

  lemma OtherFrame(a: Cipher, sid: SessionId, s: System, step: Step)
    requires SlotsInstalled(s) && Elsewhere(step)
    ensures var s' := Next(a, sid, s, step);
      && SlotsInstalled(s') && s.installed <= s'.installed && s'.threads == s.threads && s'.attempts == s.attempts
      && s'.evidence == s.evidence && s'.delivered == s.delivered
      && s'.session.window == s.session.window && s'.session.received == s.session.received
  {}

  lemma NextKeeps(a: Cipher, sid: SessionId, s: System, step: Step)
    requires Inv(a, sid, s)
    ensures Inv(a, sid, Next(a, sid, s, step))
  {
    if Elsewhere(step) {
      OtherFrame(a, sid, s, step);
      OtherKeeps(a, sid, s, Next(a, sid, s, step));
    } else {
      ReceiveStepKeeps(a, sid, s, step);
    }
  }

  lemma {:induction false} RunKeeps(a: Cipher, sid: SessionId, v: Version, steps: seq<Step>)
    ensures Inv(a, sid, Exec(a, sid, v, steps))
    decreases |steps|
  {
    if steps == [] {
      assert Holders(Init(v)) == map[];
    } else {
      RunKeeps(a, sid, v, steps[..|steps| - 1]);
      NextKeeps(a, sid, Exec(a, sid, v, steps[..|steps| - 1]), steps[|steps| - 1]);
    }
  }

  // ---- what every run guarantees ----

  /** In every interleaving at most one receive per counter returns success. */
  lemma DeliveredAtMostOnce(a: Cipher, sid: SessionId, v: Version, steps: seq<Step>)
    ensures NoDuplicates(Exec(a, sid, v, steps).delivered)
  {
    RunKeeps(a, sid, v, steps);
  }

  /**
   The received count, plus the receives between their commit and their count, is the number of
   counters in the window (with fewer than 2^64 deliveries, so that the counter has not wrapped).
   */
  lemma CountsAddUp(a: Cipher, sid: SessionId, v: Version, steps: seq<Step>)
    requires |Exec(a, sid, v, steps).delivered| < 0x1_0000_0000_0000_0000
    ensures var s := Exec(a, sid, v, steps);
      s.session.received as nat + |Holders(s)| == |s.session.window.seen|
  {
    RunKeeps(a, sid, v, steps);
    var s := Exec(a, sid, v, steps);
    CountsOf(s.delivered, Holders(s), s.evidence.Keys, s.session.received);
  }

  lemma CountsOf(delivered: seq<nat>, holders: map<nat, nat>, committed: set<nat>, received: U64)
    requires Accounted(delivered, holders, committed) && |delivered| < 0x1_0000_0000_0000_0000
    requires received == |delivered| % 0x1_0000_0000_0000_0000
    ensures received as nat + |holders| == |committed|
  {}

  /** The commits behave as one sequential window fed in the order they took the lock. */
  lemma CommitsAreSequential(a: Cipher, sid: SessionId, v: Version, steps: seq<Step>)
    ensures var s := Exec(a, sid, v, steps); s.session.window == Run(s.attempts)
  {
    RunKeeps(a, sid, v, steps);
  }

  /** Step `i` is an open in which the session's slots of that moment gave `o`. */
  predicate OpenedAt(a: Cipher, sid: SessionId, v: Version, steps: seq<Step>, i: nat, o: Opening)
    requires i < |steps|
  {
    var s := Exec(a, sid, v, steps[..i]);
    && steps[i].Open? && PhaseOf(s, steps[i].t) == Bound(o.frame, o.version)
    && o.slots == s.session.keys && OpenOutcome(a, sid, o.slots, o.frame, o.version) == Opened(o)
  }

  ghost predicate WasOpened(a: Cipher, sid: SessionId, v: Version, steps: seq<Step>, o: Opening) {
    exists i :: 0 <= i < |steps| && OpenedAt(a, sid, v, steps, i, o)
  }

  ghost predicate AllWereOpened(a: Cipher, sid: SessionId, v: Version, steps: seq<Step>, s: System) {
    && (forall t :: t in s.threads && (s.threads[t].Opened? || s.threads[t].Committed?) ==>
          WasOpened(a, sid, v, steps, s.threads[t].opening))
    && (forall c :: c in s.evidence ==> WasOpened(a, sid, v, steps, s.evidence[c]))
  }

  lemma WasOpenedExtends(a: Cipher, sid: SessionId, v: Version, steps: seq<Step>, o: Opening)
    requires steps != [] && WasOpened(a, sid, v, steps[..|steps| - 1], o)
    ensures WasOpened(a, sid, v, steps, o)
  {
    var n := |steps| - 1;
    var i :| 0 <= i < n && OpenedAt(a, sid, v, steps[..n], i, o);
    assert steps[..n][..i] == steps[..i];
    assert OpenedAt(a, sid, v, steps, i, o);
  }

  /** A step opens with the slots the session has, and passes openings on as they are. */
  lemma StepOpens(a: Cipher, sid: SessionId, s: System, step: Step, t: nat)
    requires var s' := Next(a, sid, s, step); t in s'.threads && (s'.threads[t].Opened? || s'.threads[t].Committed?)
    ensures var o := Next(a, sid, s, step).threads[t].opening;
      || (step == Open(t) && PhaseOf(s, t) == Bound(o.frame, o.version) && o.slots == s.session.keys
          && OpenOutcome(a, sid, o.slots, o.frame, o.version) == Opened(o))
      || (t in s.threads && (s.threads[t].Opened? || s.threads[t].Committed?) && s.threads[t].opening == o)
  {}

  lemma StepCommits(a: Cipher, sid: SessionId, s: System, step: Step, c: nat)
    requires c in Next(a, sid, s, step).evidence
    ensures var o := Next(a, sid, s, step).evidence[c];
      (c in s.evidence && s.evidence[c] == o) || (exists t :: t in s.threads && s.threads[t] == Opened(o))
  {}

  lemma {:induction false} RunOpens(a: Cipher, sid: SessionId, v: Version, steps: seq<Step>)
    ensures AllWereOpened(a, sid, v, steps, Exec(a, sid, v, steps))
    decreases |steps|
  {
    if steps != [] {
      var n := |steps| - 1;
      var s, s' := Exec(a, sid, v, steps[..n]), Exec(a, sid, v, steps);
      RunOpens(a, sid, v, steps[..n]);
      forall t | t in s'.threads && (s'.threads[t].Opened? || s'.threads[t].Committed?)
        ensures WasOpened(a, sid, v, steps, s'.threads[t].opening)
      {
        StepOpens(a, sid, s, steps[n], t);
        ThreadOpened(a, sid, v, steps, t, s'.threads[t].opening);
      }
      forall c | c in s'.evidence ensures WasOpened(a, sid, v, steps, s'.evidence[c]) {
        StepCommits(a, sid, s, steps[n], c);
        WasOpenedExtends(a, sid, v, steps, s'.evidence[c]);
      }
    }
  }

  lemma ThreadOpened(a: Cipher, sid: SessionId, v: Version, steps: seq<Step>, t: nat, o: Opening)
    requires steps != []
    requires var n := |steps| - 1;
      var s := Exec(a, sid, v, steps[..n]);
      || (steps[n] == Open(t) && PhaseOf(s, t) == Bound(o.frame, o.version) && o.slots == s.session.keys
          && OpenOutcome(a, sid, o.slots, o.frame, o.version) == Opened(o))
      || WasOpened(a, sid, v, steps[..n], o)
    ensures WasOpened(a, sid, v, steps, o)
  {
    var n := |steps| - 1;
    if WasOpened(a, sid, v, steps[..n], o) {
      WasOpenedExtends(a, sid, v, steps, o);
    } else {
      assert OpenedAt(a, sid, v, steps, n, o);
    }
  }

  /**
   Only counters whose frame opened under a held key enter the window: behind each there is an open step
   of the run that opened it under a real key in one of the session's receive slots at that step.
   */
  lemma OnlyOpenedCountersCommitted(a: Cipher, sid: SessionId, v: Version, steps: seq<Step>, c: nat)
    requires c in Exec(a, sid, v, steps).session.window.seen
    ensures var s := Exec(a, sid, v, steps);
      && c in s.evidence && s.evidence[c].frame.counter == c && Genuine(a, sid, s.installed, s.evidence[c])
      && WasOpened(a, sid, v, steps, s.evidence[c])
  {
    RunKeeps(a, sid, v, steps);
    RunOpens(a, sid, v, steps);
  }

  /**
   Under an ideal AEAD a forged counter never enters the window, in any interleaving and across any
   rotations: behind every committed counter is an honest seal for this session and that counter.
   */
  lemma ForgedCountersNeverCommitted(a: Cipher, honest: iset<Sealed>, sid: SessionId, v: Version, steps: seq<Step>,
                                     c: nat)
    returns (e: Sealed, version: Version, flags: U16)
    requires Ideal(a, honest) && c in Exec(a, sid, v, steps).session.window.seen
    ensures c < 0x1_0000_0000_0000_0000 && e in honest && e.aad == BuildAad(version, sid, c, flags)
    ensures e.key in Exec(a, sid, v, steps).installed && e.key != INVALID
  {
    OnlyOpenedCountersCommitted(a, sid, v, steps, c);
    var o := Exec(a, sid, v, steps).evidence[c];
    version, flags := o.version, o.frame.flags;
    e := Sealed(o.key, o.frame.iv, o.plain, BuildAad(version, sid, o.frame.counter, flags));
  }

  // ---- version changes and counters on the sending side ----

  /** Any further steps from any state. */
  function Resume(a: Cipher, sid: SessionId, s: System, steps: seq<Step>): System
    decreases |steps|
  {
    if steps == [] then s else Resume(a, sid, Next(a, sid, s, steps[0]), steps[1..])
  }

  function Reservations(steps: seq<Step>): nat {
    if steps == [] then 0 else (if steps[0].ReserveCounter? then 1 else 0) + Reservations(steps[1..])
  }

  /** The version is the one in use now, whatever follows short of wrapping the send counter. */
  ghost predicate VersionSettled(a: Cipher, sid: SessionId, s: System) {
    forall further :: s.session.wireCounter + Reservations(further) < 0x1_0000_0000_0000_0000 ==>
      Resume(a, sid, s, further).session.version == s.session.version
  }

  lemma {:induction false} SettledStays(a: Cipher, sid: SessionId, s: System, further: seq<Step>)
    requires s.session.wireCounter > 0 && s.cleared <= {s.session.version}
    requires s.session.wireCounter + Reservations(further) < 0x1_0000_0000_0000_0000
    ensures Resume(a, sid, s, further).session.version == s.session.version
    decreases |further|
  {
    if further != [] {
      SettledStep(a, sid, s, Next(a, sid, s, further[0]), further[0]);
      SettledStays(a, sid, Next(a, sid, s, further[0]), further[1..]);
    }
  }

  lemma SettledStep(a: Cipher, sid: SessionId, s: System, s': System, step: Step)
    requires s.session.wireCounter > 0 && s.cleared <= {s.session.version} && s' == Next(a, sid, s, step)
    requires step.ReserveCounter? ==> s.session.wireCounter < 0xFFFF_FFFF_FFFF_FFFF
    ensures s'.session.version == s.session.version && s'.cleared <= s.cleared
    ensures s'.session.wireCounter == s.session.wireCounter + if step.ReserveCounter? then 1 else 0
  {}

  /**
   The check and the store of a version change are two steps. Once a counter has been reserved the
   version is settled exactly when no other version has passed its check and is still to be stored.
   */
  lemma VersionSettledIff(a: Cipher, sid: SessionId, s: System)
    requires s.session.wireCounter > 0
    ensures VersionSettled(a, sid, s) <==> s.cleared <= {s.session.version}
  {
    if s.cleared <= {s.session.version} {
      forall further | s.session.wireCounter + Reservations(further) < 0x1_0000_0000_0000_0000
        ensures Resume(a, sid, s, further).session.version == s.session.version
      {
        SettledStays(a, sid, s, further);
      }
    } else {
      var w :| w in s.cleared && w != s.session.version;
      ResumeOne(a, sid, s, StoreVersion(w));
    }
  }

  lemma ResumeOne(a: Cipher, sid: SessionId, s: System, step: Step)
    ensures Resume(a, sid, s, [step]) == Next(a, sid, s, step)
    ensures Reservations([step]) == if step.ReserveCounter? then 1 else 0
  {
    assert [step][1..] == [];
  }

  /** Step `i` checked `w` before any counter was out, and it has not been stored since. */
  predicate CheckPending(a: Cipher, sid: SessionId, v: Version, steps: seq<Step>, i: nat, w: Version)
    requires i < |steps|
  {
    && steps[i] == CheckVersion(w) && Exec(a, sid, v, steps[..i]).session.wireCounter == 0
    && forall m :: i < m < |steps| ==> steps[m] != StoreVersion(w)
  }

  ghost predicate SomeCheckPending(a: Cipher, sid: SessionId, v: Version, steps: seq<Step>, w: Version) {
    exists i :: 0 <= i < |steps| && CheckPending(a, sid, v, steps, i, w)
  }

  /** A version is waiting to be stored exactly when some check of it, made while no counter was out, is pending. */
  lemma {:induction false} ClearedIff(a: Cipher, sid: SessionId, v: Version, steps: seq<Step>, w: Version)
    ensures w in Exec(a, sid, v, steps).cleared <==> SomeCheckPending(a, sid, v, steps, w)
    decreases |steps|
  {
    if steps != [] {
      var n := |steps| - 1;
      ClearedIff(a, sid, v, steps[..n], w);
      PendingStep(a, sid, v, steps, w);
      ClearedStep(a, sid, Exec(a, sid, v, steps[..n]), steps[n], w);
    }
  }

  lemma PendingStep(a: Cipher, sid: SessionId, v: Version, steps: seq<Step>, w: Version)
    requires steps != []
    ensures var n := |steps| - 1;
      SomeCheckPending(a, sid, v, steps, w) <==>
      || (SomeCheckPending(a, sid, v, steps[..n], w) && steps[n] != StoreVersion(w))
      || (steps[n] == CheckVersion(w) && Exec(a, sid, v, steps[..n]).session.wireCounter == 0)
  {
    var n := |steps| - 1;
    forall i | 0 <= i < n
      ensures CheckPending(a, sid, v, steps, i, w)
         <==> CheckPending(a, sid, v, steps[..n], i, w) && steps[n] != StoreVersion(w)
    {
      StillPending(a, sid, v, steps, i, w);
    }
    assert CheckPending(a, sid, v, steps, n, w) <==>
           steps[n] == CheckVersion(w) && Exec(a, sid, v, steps[..n]).session.wireCounter == 0;
  }

  lemma StillPending(a: Cipher, sid: SessionId, v: Version, steps: seq<Step>, i: nat, w: Version)
    requires i < |steps| - 1
    ensures var n := |steps| - 1;
      CheckPending(a, sid, v, steps, i, w)
      <==> CheckPending(a, sid, v, steps[..n], i, w) && steps[n] != StoreVersion(w)
  {
    assert steps[..|steps| - 1][..i] == steps[..i];
  }

  lemma ClearedStep(a: Cipher, sid: SessionId, s: System, step: Step, w: Version)
    ensures w in Next(a, sid, s, step).cleared <==>
            || (w in s.cleared && step != StoreVersion(w))
            || (step == CheckVersion(w) && s.session.wireCounter == 0)
  {}

  /**
   So after a run in which a counter is out, the version is settled exactly when every pending check was of
   the version in force.
   */
  lemma RunVersionSettledIff(a: Cipher, sid: SessionId, v: Version, steps: seq<Step>)
    requires Exec(a, sid, v, steps).session.wireCounter > 0
    ensures VersionSettled(a, sid, Exec(a, sid, v, steps)) <==>
            forall i, w :: 0 <= i < |steps| && CheckPending(a, sid, v, steps, i, w) ==>
              w == Exec(a, sid, v, steps).session.version
  {
    var s := Exec(a, sid, v, steps);
    VersionSettledIff(a, sid, s);
    if VersionSettled(a, sid, s) {
      forall i, w | 0 <= i < |steps| && CheckPending(a, sid, v, steps, i, w) ensures w == s.session.version {
        ClearedIff(a, sid, v, steps, w);
      }
    } else {
      var w :| w in s.cleared && w != s.session.version;
      ClearedIff(a, sid, v, steps, w);
    }
  }

  /** A run in which the version changes after a counter was handed out. */
  lemma LateVersionChange(a: Cipher, sid: SessionId, v: Version, w: Version)
    ensures var s := Exec(a, sid, v, [CheckVersion(w), ReserveCounter, StoreVersion(w)]);
      s.session.version == w && s.session.wireCounter == 1
  {
    var steps := [CheckVersion(w), ReserveCounter, StoreVersion(w)];
    assert steps[..2][..1] == [CheckVersion(w)] && steps[..2][..1][..0] == [];
    assert Exec(a, sid, v, steps[..2][..1]) == Next(a, sid, Init(v), CheckVersion(w));
  }

  /** The counters handed out in a run, in order. */
  function Reserved(a: Cipher, sid: SessionId, v: Version, steps: seq<Step>): seq<U64> {
    if steps == [] then []
    else
      var n := |steps| - 1;
      Reserved(a, sid, v, steps[..n])
      + if steps[n].ReserveCounter? then [Increment(Exec(a, sid, v, steps[..n]).session.wireCounter)] else []
  }

  predicate CountsUp(counters: seq<U64>) {
    forall k :: 0 <= k < |counters| ==> counters[k] == k + 1
  }

  lemma CountsOn(counters: seq<U64>)
    requires CountsUp(counters) && |counters| + 1 < 0x1_0000_0000_0000_0000
    ensures Increment(|counters|) == |counters| + 1 && CountsUp(counters + [|counters| + 1])
  {}

  /** Fewer than 2^64 reservations, by any threads, hand out 1, 2, 3 and so on: no counter twice. */
  lemma {:induction false} ReservedInOrder(a: Cipher, sid: SessionId, v: Version, steps: seq<Step>)
    requires |Reserved(a, sid, v, steps)| < 0x1_0000_0000_0000_0000
    ensures CountsUp(Reserved(a, sid, v, steps))
    ensures Exec(a, sid, v, steps).session.wireCounter == |Reserved(a, sid, v, steps)|
    decreases |steps|
  {
    if steps != [] {
      var n := |steps| - 1;
      ReservedInOrder(a, sid, v, steps[..n]);
      if steps[n].ReserveCounter? {
        CountsOn(Reserved(a, sid, v, steps[..n]));
      }
      CounterStep(a, sid, Exec(a, sid, v, steps[..n]), steps[n]);
    }
  }

  lemma CounterStep(a: Cipher, sid: SessionId, s: System, step: Step)
    ensures Next(a, sid, s, step).session.wireCounter
         == if step.ReserveCounter? then Increment(s.session.wireCounter) else s.session.wireCounter
  {}

  // ---- why the commit is checked again ----

  // ---- which keys a receive can use ----

  /** The keys the session took on, in order. */
  function Installs(a: Cipher, steps: seq<Step>): seq<Key> {
    if steps == [] then []
    else
      var before, step := Installs(a, steps[..|steps| - 1]), steps[|steps| - 1];
      if step.InstallPeerKey? && a.accepts(step.key) then before + [step.key] else before
  }

  /** The `k`-th of them counted from the end. */
  function FromEnd(keys: seq<Key>, k: nat): Option<Key> {
    if k < |keys| then Some(keys[|keys| - 1 - k]) else None
  }

  lemma SlotStep(a: Cipher, sid: SessionId, s: System, step: Step)
    ensures var keys, keys' := s.session.keys, Next(a, sid, s, step).session.keys;
      if step.InstallPeerKey? && a.accepts(step.key)
      then keys'.currentPeer == Some(step.key) && keys'.prevPeer == keys.currentPeer
      else keys' == keys
    ensures Next(a, sid, s, step).session.hasPeer ==
            if step.InstallPeerKey? && a.accepts(step.key) then step.key != INVALID else s.session.hasPeer
  {}

  /**
   However the steps interleave, the two slots a receive tries are the last two receive keys installed, the
   latest first, so a frame under the key before the latest still opens and one under any older key does not.
   */
  lemma {:induction false} SlotsAreLastTwoInstalls(a: Cipher, sid: SessionId, v: Version, steps: seq<Step>)
    ensures var keys := Exec(a, sid, v, steps).session.keys;
      keys.currentPeer == FromEnd(Installs(a, steps), 0) && keys.prevPeer == FromEnd(Installs(a, steps), 1)
    ensures Exec(a, sid, v, steps).session.hasPeer == Usable(FromEnd(Installs(a, steps), 0))
    decreases |steps|
  {
    if steps != [] {
      SlotsAreLastTwoInstalls(a, sid, v, steps[..|steps| - 1]);
      SlotStep(a, sid, Exec(a, sid, v, steps[..|steps| - 1]), steps[|steps| - 1]);
    }
  }

  /**
   Two threads can both pass the preview and open the same frame; the second commit is what rejects
   the copy. From any state with two such threads exactly one of them commits.
   */
  lemma SecondCommitRejected(a: Cipher, sid: SessionId, s: System, t: nat, u: nat, o: Opening, o': Opening)
    requires t != u && PhaseOf(s, t) == Opened(o) && PhaseOf(s, u) == Opened(o')
    requires o.frame.counter == o'.frame.counter && Admits(s.session.window, o.frame.counter)
    ensures var s' := Next(a, sid, Next(a, sid, s, Commit(t)), Commit(u));
      PhaseOf(s', t) == Committed(o) && PhaseOf(s', u) == Idle
      && s'.session.window.seen == s.session.window.seen + {o.frame.counter as nat}
  {}

  /** Such a state is reached as soon as a copy of a genuine frame arrives on a second thread. */
  lemma RaceIsReachable(a: Cipher, sid: SessionId, key: Key, f: Frame, plain: Bytes)
    requires a.accepts(key) && key != INVALID && |f.cipherText| <= MAX_PLAINTEXT && f.counter != 0
    requires a.open(key, f.iv, f.cipherText, BuildAad(2, sid, f.counter, f.flags), f.tag) == Some(plain)
    ensures var s := Exec(a, sid, 2, [InstallPeerKey(key)] + UpToOpen(0, Encode(f)) + UpToOpen(1, Encode(f)));
      var o := Opening(f, key, s.session.keys, 2, plain);
      PhaseOf(s, 0) == Opened(o) && PhaseOf(s, 1) == Opened(o) && Admits(s.session.window, f.counter)
  {
    var install := [InstallPeerKey(key)];
    var s := Next(a, sid, Init(2), InstallPeerKey(key));
    assert install[..0] == [];
    assert Exec(a, sid, 2, install) == s;
    assert Encode(f) + [] == Encode(f);
    ParseEncoded(f, []);
    RunsToOpen(a, sid, install, 0, Encode(f));
    RunsToOpen(a, sid, install + UpToOpen(0, Encode(f)), 1, Encode(f));
  }

  function UpToOpen(t: nat, bytes: Bytes): seq<Step> {
    [Arrive(t, bytes), Preview(t), Bind(t), Open(t)]
  }

  /** A receive that nobody interrupts, up to its open: the frame is read, previewed and opened. */
  lemma OpensAlone(a: Cipher, sid: SessionId, s: System, t: nat, bytes: Bytes)
    requires PhaseOf(s, t) == Idle && Parse(bytes).Ok? && Admits(s.session.window, Parse(bytes).value.counter)
    ensures var f := Parse(bytes).value;
      Next(a, sid, Next(a, sid, Next(a, sid, Next(a, sid, s, Arrive(t, bytes)), Preview(t)), Bind(t)), Open(t))
      == Move(s, t, OpenOutcome(a, sid, s.session.keys, f, s.session.version))
  {
    var f := Parse(bytes).value;
    MoveTwice(s, t, Arrived(f), Previewed(f));
    MoveTwice(s, t, Previewed(f), Bound(f, s.session.version));
    MoveTwice(s, t, Bound(f, s.session.version), OpenOutcome(a, sid, s.session.keys, f, s.session.version));
  }

  lemma MoveTwice(s: System, t: nat, p: Phase, q: Phase)
    ensures Move(Move(s, t, p), t, q) == Move(s, t, q)
  {}

  lemma RunsToOpen(a: Cipher, sid: SessionId, before: seq<Step>, t: nat, bytes: Bytes)
    requires var s := Exec(a, sid, 2, before);
      PhaseOf(s, t) == Idle && Parse(bytes).Ok? && Admits(s.session.window, Parse(bytes).value.counter)
    ensures var s := Exec(a, sid, 2, before);
      Exec(a, sid, 2, before + UpToOpen(t, bytes))
      == Move(s, t, OpenOutcome(a, sid, s.session.keys, Parse(bytes).value, s.session.version))
  {
    OpensAlone(a, sid, Exec(a, sid, 2, before), t, bytes);
    ExecStep(a, sid, before, Arrive(t, bytes));
    ExecStep(a, sid, before + [Arrive(t, bytes)], Preview(t));
    ExecStep(a, sid, before + [Arrive(t, bytes)] + [Preview(t)], Bind(t));
    ExecStep(a, sid, before + [Arrive(t, bytes)] + [Preview(t)] + [Bind(t)], Open(t));
    assert before + UpToOpen(t, bytes) == before + [Arrive(t, bytes)] + [Preview(t)] + [Bind(t)] + [Open(t)];
  }

  lemma ExecStep(a: Cipher, sid: SessionId, before: seq<Step>, step: Step)
    ensures Exec(a, sid, 2, before + [step]) == Next(a, sid, Exec(a, sid, 2, before), step)
  {}

  // ---- the sequential session is the uninterrupted run ----

  function Alone(a: Cipher, sid: SessionId, s: System, t: nat, bytes: Bytes): System {
    var atOpen := Next(a, sid, Next(a, sid, Next(a, sid, Next(a, sid, s, Arrive(t, bytes)), Preview(t)), Bind(t)),
        Open(t));
    Next(a, sid, Next(a, sid, atOpen, Commit(t)), Count(t))
  }

  /** Six uninterrupted steps of one thread are the sequential receive: same verdict, same new session. */
  lemma UninterruptedReceive(a: Cipher, sid: SessionId, s: System, t: nat, bytes: Bytes)
    requires PhaseOf(s, t) == Idle
    ensures var s' := Alone(a, sid, s, t, bytes);
      && PhaseOf(s', t) == Idle
      && match Receive(a, s.session, sid, bytes)
         case Err(_) => s'.session == s.session && s'.delivered == s.delivered
         case Ok(v) =>
           && s'.session == AfterReceive(s.session, v.counter)
           && s'.delivered == s.delivered + [v.counter as nat]
  {
    if Parse(bytes).Ok? && Admits(s.session.window, Parse(bytes).value.counter) {
      OpensAlone(a, sid, s, t, bytes);
    }
  }
}
