/** What the retransmission ticks and the degraded state guarantee over whole runs. */
module Retransmission {
  import opened Wrappers
  import opened Aead
  import opened KeyExchange
  import opened KeyNetwork
  import opened KeyHandover

  // ---- degraded is final ----

  lemma DegradedHandlers(accepts: Key -> bool, e: Endpoint, c: Config, key: Key, elapsed: bool)
    requires e.state.Degraded?
    ensures !Ready(e) && Rotate(accepts, e, key, elapsed) == Effect(e, [], [])
    ensures var h := HandleConfig(accepts, e, c, key, elapsed).e;
        h.state.Degraded? && h.configCounter == e.configCounter
    ensures var t := Tick(e, c).e; t.state.Degraded? && t.configCounter == e.configCounter
  {}

  /** A step at one node leaves the other's endpoint alone. */
  lemma OtherUntouched(accepts: Key -> bool, s: System, step: Step)
    ensures var y, y' := At(s, !step.atLeft), At(Next(accepts, s, step), !step.atLeft);
      y'.e == y.e && y'.pending == y.pending && y'.sent == y.sent && y'.installs == y.installs
  {}

  lemma DegradedStays(accepts: Key -> bool, s: System, step: Step, atLeft: bool)
    requires At(s, atLeft).e.state.Degraded?
    ensures var e, e' := At(s, atLeft).e, At(Next(accepts, s, step), atLeft).e;
      e'.state.Degraded? && e'.configCounter == e.configCounter && !Ready(e')
  {
    var e := At(s, atLeft).e;
    if step.atLeft != atLeft {
      OtherUntouched(accepts, s, step);
    } else {
      match step
      case RotateKey(_, key, elapsed) => DegradedHandlers(accepts, e, Config(false, false, 0, INVALID), key, elapsed);
      case GoDegraded(_) => DegradedHandlers(accepts, e, Config(false, false, 0, INVALID), INVALID, false);
      case Deliver(_, c, key, elapsed) => DegradedHandlers(accepts, e, c, key, elapsed);
      case Fire(_, c) => DegradedHandlers(accepts, e, c, INVALID, false);
    }
  }

  predicate DegradedAt(s: System, atLeft: bool, counter: nat) {
    At(s, atLeft).e.state.Degraded? && At(s, atLeft).e.configCounter == counter
  }

  /**
   Once degraded, always degraded: whatever arrives, whatever is asked, from there on no key exchange
   is started and the endpoint is never again ready to send data over the lane.
   */
  lemma {:induction false} DegradedForever(accepts: Key -> bool, s: System, steps: seq<Step>, atLeft: bool,
                                           counter: nat)
    requires DegradedAt(s, atLeft, counter)
    ensures DegradedAt(Resume(accepts, s, steps), atLeft, counter) && !Ready(At(Resume(accepts, s, steps), atLeft).e)
    decreases |steps|
  {
    if steps != [] {
      DegradedStays(accepts, s, steps[0], atLeft);
      DegradedForever(accepts, Next(accepts, s, steps[0]), steps[1..], atLeft, counter);
    }
  }

  // ---- how often a request is sent ----

  /** How many of the transmissions carry counter `n`. */
  function Transmissions(cs: seq<Config>, n: nat): nat {
    if cs == [] then 0
    else Transmissions(cs[..|cs| - 1], n) + if cs[|cs| - 1].counter == n then 1 else 0
  }

  lemma TransmissionsAppend(cs: seq<Config>, c: Config, n: nat)
    ensures Transmissions(cs + [c], n) == Transmissions(cs, n) + if c.counter == n then 1 else 0
  {}

  lemma {:induction false} NoneBeyond(cs: seq<Config>, n: nat)
    requires forall i :: 0 <= i < |cs| ==> cs[i].counter < n
    ensures Transmissions(cs, n) == 0
  {
    if cs != [] {
      NoneBeyond(cs[..|cs| - 1], n);
    }
  }

  // ---- at most one tick per counter, in every run ----

  /** At most one tick per counter is waiting, and none for a counter not yet used. */
  ghost predicate OneTick(x: Node) {
    && (forall c :: c in x.pending ==> x.pending[c] == 1 && c.counter <= x.e.configCounter)
    && (forall c, d :: c in x.pending && d in x.pending && c.counter == d.counter ==> c == d)
  }

  lemma OneTickKept(accepts: Key -> bool, x: Node, x': Node, y: Node, y': Node, started: Option<Key>)
    requires OneTick(x) && Acted(accepts, x, x', y, y', started)
    ensures OneTick(x')
  {}

  lemma OneTickStep(accepts: Key -> bool, s: System, step: Step, atLeft: bool)
    requires OneTick(At(s, atLeft)) && Mail(At(s, step.atLeft), At(s, !step.atLeft))
    ensures OneTick(At(Next(accepts, s, step), atLeft))
  {
    var s' := Next(accepts, s, step);
    StepActs(accepts, s, step);
    if step.atLeft == atLeft {
      OneTickKept(accepts, At(s, atLeft), At(s', atLeft), At(s, !atLeft), At(s', !atLeft), Started(accepts, s, step));
    } else {
      OtherUntouched(accepts, s, step);
    }
  }

  lemma {:induction false} OneTickAlways(accepts: Key -> bool, l: LaneState, r: LaneState, steps: seq<Step>,
                                         atLeft: bool)
    ensures OneTick(At(Exec(accepts, l, r, steps), atLeft))
    decreases |steps|
  {
    if steps != [] {
      var n := |steps| - 1;
      OneTickAlways(accepts, l, r, steps[..n], atLeft);
      MailAlways(accepts, l, r, steps[..n]);
      OneTickStep(accepts, Exec(accepts, l, r, steps[..n]), steps[n], atLeft);
    }
  }

  // ---- how often a request is sent ----

  /**
   An exchange may be started when its AEAD can be built, or when the peer will never answer again, or
   when its key is the sending key already and nothing is staged.
   */
  predicate StepBuilds(accepts: Key -> bool, s: System, step: Step) {
    Started(accepts, s, step).Some? ==>
      Builds(accepts, At(s, step.atLeft), At(s, !step.atLeft), Started(accepts, s, step).value)
  }

  predicate Builds(accepts: Key -> bool, x: Node, y: Node, key: Key) {
    accepts(key) || y.e.state.Degraded? || (x.e.nextSelf == None && SelfKey(x.e) == key)
  }

  ghost predicate Building(accepts: Key -> bool, l: LaneState, r: LaneState, steps: seq<Step>, atLeft: bool) {
    forall i :: 0 <= i < |steps| && steps[i].atLeft == atLeft ==>
      StepBuilds(accepts, Exec(accepts, l, r, steps[..i]), steps[i])
  }

  predicate Latest(x: Node, c: Config) {
    x.sent != [] && x.sent[|x.sent| - 1] == c
  }

  /** Counters never run ahead, and a tick for the current one repeats the latest request. */
  ghost predicate SentInOrder(x: Node) {
    && (forall i :: 0 <= i < |x.sent| ==> x.sent[i].counter <= x.e.configCounter)
    && (x.sent != [] ==> x.sent[|x.sent| - 1].counter == x.e.configCounter)
    && (forall c :: c in x.pending && c.counter == x.e.configCounter ==> Latest(x, c))
  }

  /** The latest request is done with: its key is the sending key and nothing is staged. */
  predicate Settled(x: Node) {
    x.sent != [] && x.e.nextSelf == None && SelfKey(x.e) == x.sent[|x.sent| - 1].key
  }

  /** Its acknowledgement would settle it, or will never come. */
  ghost predicate WillSettle(x: Node, y: Node) {
    && x.sent != []
    && (|| x.e.nextSelf == Some(x.sent[|x.sent| - 1].key)
        || (y.e.state.Degraded? && forall c :: c in x.inbox && c.ack ==> c.counter != x.e.configCounter))
  }

  /** Until it is settled, every transmission after the first is on the retransmission count. */
  ghost predicate Counted(x: Node, y: Node) {
    x.sent != [] && !Settled(x) ==>
      WillSettle(x, y) && Transmissions(x.sent, x.e.configCounter) == 1 + x.e.retransmitCount
  }

  ghost predicate AtMostSix(sent: seq<Config>) {
    forall n :: Transmissions(sent, n) <= 1 + MAX_RETRANSMISSION_ATTEMPTS
  }

  ghost predicate Bounded(x: Node, y: Node) {
    SentInOrder(x) && Counted(x, y) && AtMostSix(x.sent) && x.e.retransmitCount <= MAX_RETRANSMISSION_ATTEMPTS
  }

  lemma AnnounceInOrder(accepts: Key -> bool, x: Node, x': Node, y': Node, k: Key, c: Config)
    requires SentInOrder(x) && OneTick(x) && Announced(accepts, x, x', y', k, c)
    ensures SentInOrder(x')
  {}

  lemma ResendInOrder(x: Node, x': Node, c: Config)
    requires SentInOrder(x) && Resent(x, x', c)
    ensures SentInOrder(x')
  {
    assert Latest(x, c);
  }

  lemma SentInOrderKept(accepts: Key -> bool, x: Node, x': Node, y: Node, y': Node, started: Option<Key>)
    requires SentInOrder(x) && OneTick(x) && Acted(accepts, x, x', y, y', started)
    ensures SentInOrder(x')
  {
    if started.Some? {
      var c :| Announced(accepts, x, x', y', started.value, c) && Carried(x, x', y, y', {c});
      AnnounceInOrder(accepts, x, x', y', started.value, c);
    } else if !Idled(x, x') && !Promoted(x, x') {
      var c :| Resent(x, x', c) && Carried(x, x', y, y', {c});
      ResendInOrder(x, x', c);
    }
  }

  lemma OneMoreSent(sent: seq<Config>, c: Config)
    requires AtMostSix(sent) && Transmissions(sent, c.counter) <= MAX_RETRANSMISSION_ATTEMPTS
    ensures AtMostSix(sent + [c])
    ensures Transmissions(sent + [c], c.counter) == Transmissions(sent, c.counter) + 1
  {
    forall n ensures Transmissions(sent + [c], n) <= 1 + MAX_RETRANSMISSION_ATTEMPTS {
      TransmissionsAppend(sent, c, n);
    }
    TransmissionsAppend(sent, c, c.counter);
  }

  lemma AnnounceBounded(accepts: Key -> bool, x: Node, x': Node, y: Node, y': Node, k: Key, c: Config)
    requires Bounded(x, y) && Mail(x, y) && Announced(accepts, x, x', y', k, c) && Carried(x, x', y, y', {c})
    requires Builds(accepts, x, y, k)
    ensures Counted(x', y') && AtMostSix(x'.sent)
  {
    NoneBeyond(x.sent, c.counter);
    OneMoreSent(x.sent, c);
  }

  lemma ResendBounded(x: Node, x': Node, y: Node, y': Node, c: Config)
    requires Bounded(x, y) && Resent(x, x', c) && Carried(x, x', y, y', {c})
    ensures Counted(x', y') && AtMostSix(x'.sent)
  {
    assert Latest(x, c) && !Settled(x);
    OneMoreSent(x.sent, c);
  }

  /** An acknowledgement of the latest request settles it. */
  lemma PromoteBounded(x: Node, x': Node, y: Node, y': Node)
    requires Bounded(x, y) && Promoted(x, x') && Carried(x, x', y, y', {})
    ensures Counted(x', y') && AtMostSix(x'.sent)
  {}

  lemma IdleBounded(x: Node, x': Node, y: Node, y': Node)
    requires Bounded(x, y) && Idled(x, x') && Carried(x, x', y, y', {})
    ensures Counted(x', y') && AtMostSix(x'.sent)
  {}

  lemma OwnBounded(accepts: Key -> bool, x: Node, x': Node, y: Node, y': Node, started: Option<Key>)
    requires Bounded(x, y) && OneTick(x) && Mail(x, y) && Acted(accepts, x, x', y, y', started)
    requires started.Some? ==> Builds(accepts, x, y, started.value)
    ensures Bounded(x', y')
  {
    SentInOrderKept(accepts, x, x', y, y', started);
    if started.Some? {
      var c :| Announced(accepts, x, x', y', started.value, c) && Carried(x, x', y, y', {c});
      AnnounceBounded(accepts, x, x', y, y', started.value, c);
    } else if Carried(x, x', y, y', {}) && Idled(x, x') {
      IdleBounded(x, x', y, y');
    } else if Carried(x, x', y, y', {}) && Promoted(x, x') {
      PromoteBounded(x, x', y, y');
    } else {
      var c :| Resent(x, x', c) && Carried(x, x', y, y', {c});
      ResendBounded(x, x', y, y', c);
    }
  }

  /** A peer that is degraded acknowledges nothing. */
  lemma PeerBounded(accepts: Key -> bool, x: Node, x': Node, y: Node, y': Node, started: Option<Key>)
    requires Bounded(x, y) && Acted(accepts, y, y', x, x', started)
    ensures Bounded(x', y')
  {}

  ghost predicate Kept(x: Node, y: Node) {
    Bounded(x, y) && OneTick(x) && Mail(x, y) && Mail(y, x)
  }

  lemma OwnNextBounded(accepts: Key -> bool, s: System, s': System, step: Step, x: Node, x': Node, y: Node, y': Node)
    requires s' == Next(accepts, s, step) && x == At(s, step.atLeft) && x' == At(s', step.atLeft)
    requires y == At(s, !step.atLeft) && y' == At(s', !step.atLeft)
    requires Kept(x, y) && StepBuilds(accepts, s, step)
    ensures Bounded(x', y') && OneTick(x')
  {
    StepActs(accepts, s, step);
    OwnBounded(accepts, x, x', y, y', Started(accepts, s, step));
    OneTickKept(accepts, x, x', y, y', Started(accepts, s, step));
  }

  lemma PeerNextBounded(accepts: Key -> bool, s: System, s': System, step: Step, x: Node, x': Node, y: Node, y': Node)
    requires s' == Next(accepts, s, step) && y == At(s, step.atLeft) && y' == At(s', step.atLeft)
    requires x == At(s, !step.atLeft) && x' == At(s', !step.atLeft)
    requires Kept(x, y)
    ensures Bounded(x', y') && OneTick(x')
  {
    StepActs(accepts, s, step);
    OtherUntouched(accepts, s, step);
    PeerBounded(accepts, x, x', y, y', Started(accepts, s, step));
  }

  lemma NextBounded(accepts: Key -> bool, s: System, s': System, step: Step, atLeft: bool)
    requires Kept(At(s, atLeft), At(s, !atLeft)) && (step.atLeft == atLeft ==> StepBuilds(accepts, s, step))
    requires s' == Next(accepts, s, step)
    ensures Kept(At(s', atLeft), At(s', !atLeft))
  {
    MailStep(accepts, s, step);
    if step.atLeft == atLeft {
      OwnNextBounded(accepts, s, s', step, At(s, atLeft), At(s', atLeft), At(s, !atLeft), At(s', !atLeft));
    } else {
      PeerNextBounded(accepts, s, s', step, At(s, atLeft), At(s', atLeft), At(s, !atLeft), At(s', !atLeft));
    }
  }

  lemma {:induction false} RunBounded(accepts: Key -> bool, l: LaneState, r: LaneState, steps: seq<Step>, n: nat,
                                      atLeft: bool)
    requires Building(accepts, l, r, steps, atLeft) && n <= |steps|
    ensures var s := Exec(accepts, l, r, steps[..n]); Kept(At(s, atLeft), At(s, !atLeft))
    decreases n
  {
    if n > 0 {
      RunBounded(accepts, l, r, steps, n - 1, atLeft);
      ExecStep(accepts, l, r, steps, n - 1);
      NextBounded(accepts, Exec(accepts, l, r, steps[..n - 1]), Exec(accepts, l, r, steps[..n]), steps[n - 1], atLeft);
    }
  }

  lemma {:induction false} ResumeBounded(accepts: Key -> bool, s: System, further: seq<Step>, atLeft: bool)
    requires Kept(At(s, atLeft), At(s, !atLeft)) && StartsNothing(accepts, s, further, atLeft)
    ensures var s' := Resume(accepts, s, further); Kept(At(s', atLeft), At(s', !atLeft))
    decreases |further|
  {
    if further != [] {
      NextBounded(accepts, s, Next(accepts, s, further[0]), further[0], atLeft);
      ResumeBounded(accepts, Next(accepts, s, further[0]), further[1..], atLeft);
    }
  }

  // ---- an exchange that does not build is repeated without limit ----

  /** A request announced without a key: its acknowledgement only resets the count. */
  predicate Hopeless(x: Node, c: Config) {
    && c in x.pending && !c.ack && c.counter == x.e.configCounter && c.key != SelfKey(x.e)
    && Supported(x.e) && x.e.nextSelf == None && x.e.retransmitCount == 0 && c.(ack := true) in x.inbox
  }

  /** The tick fires and the acknowledgement arrives once more. */
  function Again(atLeft: bool, c: Config): seq<Step> {
    [Fire(atLeft, c), Deliver(atLeft, c.(ack := true), INVALID, false)]
  }

  function Times(steps: seq<Step>, n: nat): seq<Step> {
    if n == 0 then [] else steps + Times(steps, n - 1)
  }

  /** Since `x` the request was transmitted `n` more times, and can be again. */
  predicate ResentTimes(x: Node, x': Node, c: Config, n: nat) {
    Hopeless(x', c) && Transmissions(x'.sent, c.counter) == Transmissions(x.sent, c.counter) + n
  }

  lemma HopelessFires(accepts: Key -> bool, s: System, atLeft: bool, c: Config)
    requires Hopeless(At(s, atLeft), c)
    ensures var x, x' := At(s, atLeft), At(Next(accepts, s, Fire(atLeft, c)), atLeft);
      x' == x.(e := x.e.(retransmitCount := 1), sent := x.sent + [c])
  {
    var x := At(s, atLeft);
    OneRequest(c);
    assert x.pending - multiset{c} + multiset{c} == x.pending;
  }

  lemma HopelessAcknowledged(accepts: Key -> bool, s: System, atLeft: bool, c: Config)
    requires var x := At(s, atLeft); Hopeless(x.(e := x.e.(retransmitCount := 0)), c)
    ensures var b := Deliver(atLeft, c.(ack := true), INVALID, false);
      var x, x' := At(s, atLeft), At(Next(accepts, s, b), atLeft);
      Hopeless(x', c) && x'.sent == x.sent && Started(accepts, s, b) == None
  {
    AnswerPromotes(accepts, s, atLeft, c.(ack := true));
  }

  /** The tick and the acknowledgement together. */
  function Round(accepts: Key -> bool, atLeft: bool, c: Config): System -> System {
    s => Next(accepts, Next(accepts, s, Fire(atLeft, c)), Deliver(atLeft, c.(ack := true), INVALID, false))
  }

  lemma HopelessRound(accepts: Key -> bool, s: System, atLeft: bool, c: Config, rest: seq<Step>)
    requires Hopeless(At(s, atLeft), c)
    ensures ResentTimes(At(s, atLeft), At(Round(accepts, atLeft, c)(s), atLeft), c, 1)
    ensures var steps := Again(atLeft, c) + rest;
      && Resume(accepts, s, steps) == Resume(accepts, Round(accepts, atLeft, c)(s), rest)
      && (StartsNothing(accepts, Round(accepts, atLeft, c)(s), rest, atLeft) ==>
        StartsNothing(accepts, s, steps, atLeft))
  {
    var a, b := Fire(atLeft, c), Deliver(atLeft, c.(ack := true), INVALID, false);
    HopelessFires(accepts, s, atLeft, c);
    HopelessAcknowledged(accepts, Next(accepts, s, a), atLeft, c);
    TransmissionsAppend(At(s, atLeft).sent, c, c.counter);
    ResumePair(accepts, s, a, b, rest, atLeft);
  }

  lemma ResumePair(accepts: Key -> bool, s: System, a: Step, b: Step, rest: seq<Step>, atLeft: bool)
    requires Started(accepts, s, a).None? && Started(accepts, Next(accepts, s, a), b).None?
    ensures Resume(accepts, s, [a, b] + rest) == Resume(accepts, Next(accepts, Next(accepts, s, a), b), rest)
    ensures StartsNothing(accepts, Next(accepts, Next(accepts, s, a), b), rest, atLeft) ==>
              StartsNothing(accepts, s, [a, b] + rest, atLeft)
  {
    var s1 := Next(accepts, s, a);
    assert ([a, b] + rest)[1..] == [b] + rest && ([b] + rest)[1..] == rest;
    assert Resume(accepts, s1, [b] + rest) == Resume(accepts, Next(accepts, s1, b), rest);
    if StartsNothing(accepts, Next(accepts, s1, b), rest, atLeft) {
      assert StartsNothing(accepts, s1, [b] + rest, atLeft);
    }
  }

  lemma OnceMore(x: Node, x': Node, x'': Node, c: Config, n: nat)
    requires ResentTimes(x, x', c, 1) && ResentTimes(x', x'', c, n)
    ensures ResentTimes(x, x'', c, n + 1)
  {}

  /** After the steps `s` has become `s'`, the request transmitted `n` more times and nothing started. */
  predicate Repeated(accepts: Key -> bool, s: System, s': System, steps: seq<Step>, atLeft: bool, c: Config, n: nat) {
    && s' == Resume(accepts, s, steps) && StartsNothing(accepts, s, steps, atLeft)
    && ResentTimes(At(s, atLeft), At(s', atLeft), c, n)
  }

  /** A round keeps the request hopeless, and put in front of further steps it adds one transmission. */
  ghost predicate RoundAdds(accepts: Key -> bool, round: System -> System, again: seq<Step>, atLeft: bool, c: Config) {
    && (forall s {:trigger round(s)} :: Hopeless(At(s, atLeft), c) ==> Hopeless(At(round(s), atLeft), c))
    && (forall s, s', rest, n: nat {:trigger Repeated(accepts, round(s), s', rest, atLeft, c, n)} ::
          Hopeless(At(s, atLeft), c) && Repeated(accepts, round(s), s', rest, atLeft, c, n) ==>
          Repeated(accepts, s, s', again + rest, atLeft, c, n + 1))
  }

  lemma RoundRepeated(accepts: Key -> bool, s: System, s': System, rest: seq<Step>, atLeft: bool, c: Config, n: nat)
    requires Hopeless(At(s, atLeft), c) && Repeated(accepts, Round(accepts, atLeft, c)(s), s', rest, atLeft, c, n)
    ensures Repeated(accepts, s, s', Again(atLeft, c) + rest, atLeft, c, n + 1)
  {
    HopelessRound(accepts, s, atLeft, c, rest);
    OnceMore(At(s, atLeft), At(Round(accepts, atLeft, c)(s), atLeft), At(s', atLeft), c, n);
  }

  lemma RoundOfHopelessAdds(accepts: Key -> bool, atLeft: bool, c: Config)
    ensures RoundAdds(accepts, Round(accepts, atLeft, c), Again(atLeft, c), atLeft, c)
  {
    var round := Round(accepts, atLeft, c);
    forall s | Hopeless(At(s, atLeft), c) ensures Hopeless(At(round(s), atLeft), c) {
      HopelessRound(accepts, s, atLeft, c, []);
    }
    forall s, s', rest, n: nat | Hopeless(At(s, atLeft), c) && Repeated(accepts, round(s), s', rest, atLeft, c, n)
      ensures Repeated(accepts, s, s', Again(atLeft, c) + rest, atLeft, c, n + 1)
    {
      RoundRepeated(accepts, s, s', rest, atLeft, c, n);
    }
  }

  lemma {:induction false} RoundsAdd(accepts: Key -> bool, round: System -> System, again: seq<Step>, s: System,
                                     atLeft: bool, c: Config, n: nat) returns (s': System)
    requires RoundAdds(accepts, round, again, atLeft, c) && Hopeless(At(s, atLeft), c)
    ensures Repeated(accepts, s, s', Times(again, n), atLeft, c, n)
    decreases n
  {
    if n == 0 {
      s' := s;
    } else {
      s' := RoundsAdd(accepts, round, again, round(s), atLeft, c, n - 1);
    }
  }

  /** With repeated acknowledgements such a request is transmitted without limit. */
  lemma HopelessRequestRepeats(accepts: Key -> bool, s: System, atLeft: bool, c: Config, n: nat) returns (s': System)
    requires Hopeless(At(s, atLeft), c)
    ensures Repeated(accepts, s, s', Times(Again(atLeft, c), n), atLeft, c, n)
  {
    RoundOfHopelessAdds(accepts, atLeft, c);
    s' := RoundsAdd(accepts, Round(accepts, atLeft, c), Again(atLeft, c), s, atLeft, c, n);
  }

  /** Keys are only ever staged, and then used, if an AEAD could be built for them. */
  predicate Keyed(accepts: Key -> bool, e: Endpoint) {
    (e.nextSelf.Some? ==> accepts(e.nextSelf.value)) && (e.currentSelf.Some? ==> accepts(e.currentSelf.value))
  }

  lemma KeyedStep(accepts: Key -> bool, s: System, step: Step, atLeft: bool)
    requires Keyed(accepts, At(s, atLeft).e) && Mail(At(s, step.atLeft), At(s, !step.atLeft))
    ensures Keyed(accepts, At(Next(accepts, s, step), atLeft).e)
  {
    var s' := Next(accepts, s, step);
    StepActs(accepts, s, step);
    if step.atLeft == atLeft {
      KeyedKept(accepts, At(s, atLeft), At(s', atLeft), At(s, !atLeft), At(s', !atLeft), Started(accepts, s, step));
    } else {
      OtherUntouched(accepts, s, step);
    }
  }

  lemma KeyedKept(accepts: Key -> bool, x: Node, x': Node, y: Node, y': Node, started: Option<Key>)
    requires Keyed(accepts, x.e) && Acted(accepts, x, x', y, y', started)
    ensures Keyed(accepts, x'.e)
  {}

  lemma {:induction false} KeyedAlways(accepts: Key -> bool, l: LaneState, r: LaneState, steps: seq<Step>, atLeft: bool)
    ensures Keyed(accepts, At(Exec(accepts, l, r, steps), atLeft).e)
    decreases |steps|
  {
    if steps != [] {
      var n := |steps| - 1;
      KeyedAlways(accepts, l, r, steps[..n], atLeft);
      MailAlways(accepts, l, r, steps[..n]);
      KeyedStep(accepts, Exec(accepts, l, r, steps[..n]), steps[n], atLeft);
    }
  }

  /** A failed start, acknowledged, is hopeless - also when an older key was staged, which is then in use. */
  lemma FailedStartIsHopeless(accepts: Key -> bool, s: System, atLeft: bool, c: Config)
    requires FailedStart(accepts, At(s, atLeft), At(s, !atLeft), c) && c in At(s, atLeft).pending
    requires Keyed(accepts, At(s, atLeft).e) && !accepts(c.key)
    requires At(s, atLeft).e.nextSelf.Some? || SelfKey(At(s, atLeft).e) != c.key
    ensures var s' := Resume(accepts, s, Answered(atLeft, c));
      Hopeless(At(s', atLeft), c) && At(s', atLeft).sent == At(s, atLeft).sent
    ensures StartsNothing(accepts, s, Answered(atLeft, c), atLeft)
  {
    AnsweredFailure(accepts, s, atLeft, c);
  }

  lemma {:induction false} ResumeAppend(accepts: Key -> bool, s: System, first: seq<Step>, rest: seq<Step>)
    ensures Resume(accepts, s, first + rest) == Resume(accepts, Resume(accepts, s, first), rest)
    decreases |first|
  {
    if first == [] {
      assert first + rest == rest;
    } else {
      var longer := first + rest;
      assert longer[1..] == first[1..] + rest && longer[0] == first[0];
      ResumeAppend(accepts, Next(accepts, s, first[0]), first[1..], rest);
    }
  }

  lemma {:induction false} StartsNothingAppend(accepts: Key -> bool, s: System, s': System, first: seq<Step>,
                                               rest: seq<Step>, atLeft: bool)
    requires StartsNothing(accepts, s, first, atLeft) && s' == Resume(accepts, s, first)
    requires StartsNothing(accepts, s', rest, atLeft)
    ensures StartsNothing(accepts, s, first + rest, atLeft)
    decreases |first|
  {
    if first == [] {
      assert first + rest == rest;
    } else {
      var longer := first + rest;
      assert longer[1..] == first[1..] + rest && longer[0] == first[0];
      StartsNothingAppend(accepts, Next(accepts, s, first[0]), s', first[1..], rest, atLeft);
    }
  }

  /** The whole story: answered once, then repeated `n` times. */
  function AnsweredThenRepeated(atLeft: bool, c: Config, n: nat): seq<Step> {
    Answered(atLeft, c) + Times(Again(atLeft, c), n)
  }

  lemma FailedStartRepeats(accepts: Key -> bool, s: System, atLeft: bool, c: Config, n: nat)
    requires FailedStart(accepts, At(s, atLeft), At(s, !atLeft), c) && c in At(s, atLeft).pending
    requires Keyed(accepts, At(s, atLeft).e) && !accepts(c.key)
    requires At(s, atLeft).e.nextSelf.Some? || SelfKey(At(s, atLeft).e) != c.key
    ensures var s' := Resume(accepts, s, AnsweredThenRepeated(atLeft, c, n));
      Transmissions(At(s', atLeft).sent, c.counter) == Transmissions(At(s, atLeft).sent, c.counter) + n
    ensures StartsNothing(accepts, s, AnsweredThenRepeated(atLeft, c, n), atLeft)
  {
    FailedStartIsHopeless(accepts, s, atLeft, c);
    var s' := HopelessRequestRepeats(accepts, Resume(accepts, s, Answered(atLeft, c)), atLeft, c, n);
    ResumeAppend(accepts, s, Answered(atLeft, c), Times(Again(atLeft, c), n));
    StartsNothingAppend(accepts, s, Resume(accepts, s, Answered(atLeft, c)), Answered(atLeft, c),
      Times(Again(atLeft, c), n), atLeft);
  }

  /** After a start that does not build, the network can have its request transmitted any number of times. */
  lemma UnbuiltStartRepeats(accepts: Key -> bool, s: System, step: Step, n: nat) returns (c: Config)
    requires Mail(At(s, step.atLeft), At(s, !step.atLeft)) && Keyed(accepts, At(s, step.atLeft).e)
    requires !StepBuilds(accepts, s, step)
    ensures var s1, further := Next(accepts, s, step), AnsweredThenRepeated(step.atLeft, c, n);
      && StartsNothing(accepts, s1, further, step.atLeft)
      && Transmissions(At(Resume(accepts, s1, further), step.atLeft).sent, c.counter) > n
  {
    c := FailedStarts(accepts, s, step);
    FailedStartRepeats(accepts, Next(accepts, s, step), step.atLeft, c, n);
    TransmissionsAppend(At(s, step.atLeft).sent, c, c.counter);
  }

  // ---- the bound, exactly ----

  /** As long as one side starts nothing more, none of its requests is transmitted more than six times. */
  ghost predicate WithinBound(accepts: Key -> bool, s: System, atLeft: bool) {
    forall further :: StartsNothing(accepts, s, further, atLeft) ==>
      AtMostSix(At(Resume(accepts, s, further), atLeft).sent)
  }

  /**
   All along a run, and in everything the network can still make of it, each request is transmitted at
   most once plus five times - exactly when every exchange started in the run builds.
   */
  lemma RetransmissionsBounded(accepts: Key -> bool, l: LaneState, r: LaneState, steps: seq<Step>, atLeft: bool)
    ensures Building(accepts, l, r, steps, atLeft) <==>
            forall n :: 0 <= n <= |steps| ==> WithinBound(accepts, Exec(accepts, l, r, steps[..n]), atLeft)
  {
    if Building(accepts, l, r, steps, atLeft) {
      forall n | 0 <= n <= |steps| ensures WithinBound(accepts, Exec(accepts, l, r, steps[..n]), atLeft) {
        RunBounded(accepts, l, r, steps, n, atLeft);
        KeptIsWithin(accepts, Exec(accepts, l, r, steps[..n]), atLeft);
      }
    } else {
      var i :| 0 <= i < |steps| && steps[i].atLeft == atLeft
            && !StepBuilds(accepts, Exec(accepts, l, r, steps[..i]), steps[i]);
      MailAlways(accepts, l, r, steps[..i]);
      KeyedAlways(accepts, l, r, steps[..i], atLeft);
      ExecStep(accepts, l, r, steps, i);
      BeyondBound(accepts, Exec(accepts, l, r, steps[..i]), steps[i]);
      assert !WithinBound(accepts, Exec(accepts, l, r, steps[..i + 1]), atLeft);
    }
  }

  lemma KeptIsWithin(accepts: Key -> bool, s: System, atLeft: bool)
    requires Kept(At(s, atLeft), At(s, !atLeft))
    ensures WithinBound(accepts, s, atLeft)
  {
    forall further | StartsNothing(accepts, s, further, atLeft)
      ensures AtMostSix(At(Resume(accepts, s, further), atLeft).sent)
    {
      ResumeBounded(accepts, s, further, atLeft);
    }
  }

  lemma BeyondBound(accepts: Key -> bool, s: System, step: Step)
    requires Mail(At(s, step.atLeft), At(s, !step.atLeft)) && Keyed(accepts, At(s, step.atLeft).e)
    requires !StepBuilds(accepts, s, step)
    ensures !WithinBound(accepts, Next(accepts, s, step), step.atLeft)
  {
    var c := UnbuiltStartRepeats(accepts, s, step, 6);
    var further := AnsweredThenRepeated(step.atLeft, c, 6);
    assert !AtMostSix(At(Resume(accepts, Next(accepts, s, step), further), step.atLeft).sent);
  }

  /** With AEADs that can be built, no run transmits a request more than six times. */
  lemma BuiltRequestsAreBounded(accepts: Key -> bool, l: LaneState, r: LaneState, steps: seq<Step>, atLeft: bool)
    requires forall k :: accepts(k)
    ensures AtMostSix(At(Exec(accepts, l, r, steps), atLeft).sent)
  {
    RunBounded(accepts, l, r, steps, |steps|, atLeft);
    assert steps[..|steps|] == steps;
  }

  /** A run that goes beyond any bound: one rotation whose AEAD cannot be built. */
  lemma FailedBuildRun(accepts: Key -> bool, bad: Key, n: nat)
    requires !accepts(bad) && bad != INVALID
    ensures var c := Config(false, false, 1, bad);
      var s := Exec(accepts, Inactive, Inactive, [RotateKey(true, bad, false)] + AnsweredThenRepeated(true, c, n));
      Transmissions(s.left.sent, 1) == 1 + n
  {
    var a, c := RotateKey(true, bad, false), Config(false, false, 1, bad);
    ExecOne(accepts, Inactive, Inactive, a);
    RotationStep(accepts, System(Start(Inactive), Start(Inactive)), true, bad, false);
    var s := Exec(accepts, Inactive, Inactive, [a]);
    FailedStartRepeats(accepts, s, true, c, n);
    TransmissionsAppend([], c, 1);
    ExecThenResume(accepts, Inactive, Inactive, [a], AnsweredThenRepeated(true, c, n));
  }
}
