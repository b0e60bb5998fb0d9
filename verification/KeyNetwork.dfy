/**
 Two endpoints exchanging keys over a network that may lose, duplicate and reorder: every frame ever
 sent stays in the addressee's inbox and may be delivered any number of times, or never.
 */
module KeyNetwork {
  import opened Wrappers
  import opened Aead
  import opened KeyExchange

  datatype Node = Node(
    e: Endpoint,
    inbox: set<Config>,          // every frame ever sent to this node
    pending: multiset<Config>,   // retransmission ticks not yet fired
    installs: seq<Config>,       // requests whose key this node installed, in order
    sent: seq<Config>)           // every request this node transmitted, repeats included

  datatype System = System(left: Node, right: Node)

  datatype Step =
    | RotateKey(atLeft: bool, key: Key, elapsed: bool)
    | GoDegraded(atLeft: bool)
    | Deliver(atLeft: bool, c: Config, key: Key, elapsed: bool)
    | Fire(atLeft: bool, c: Config)

  function At(s: System, atLeft: bool): Node {
    if atLeft then s.left else s.right
  }

  function Put(x: Node, y: Node, atLeft: bool): System {
    if atLeft then System(x, y) else System(y, x)
  }

  function Requests(cs: seq<Config>): seq<Config> {
    if cs == [] then [] else (if cs[0].ack then [] else [cs[0]]) + Requests(cs[1..])
  }

  /** Node `x` runs a handler. */
  function Ran(x: Node, f: Effect): Node {
    x.(e := f.e, pending := x.pending + multiset(f.ticks), sent := x.sent + Requests(f.sent))
  }

  function Reached(y: Node, f: Effect): Node {
    y.(inbox := y.inbox + Elements(f.sent))
  }

  function Run(s: System, atLeft: bool, x: Node, f: Effect): System {
    Put(Ran(x, f), Reached(At(s, !atLeft), f), atLeft)
  }

  function Installing(accepts: Key -> bool, x: Node, c: Config): Node {
    if !c.ack && c.enabled && Processes(accepts, x.e, c) then x.(installs := x.installs + [c]) else x
  }

  function Next(accepts: Key -> bool, s: System, step: Step): System {
    var x := At(s, step.atLeft);
    match step
    case RotateKey(_, key, elapsed) => Run(s, step.atLeft, x, Rotate(accepts, x.e, key, elapsed))
    case GoDegraded(_) => if Ready(x.e) then Run(s, step.atLeft, x, Degrade(accepts, x.e)) else s
    case Deliver(_, c, key, elapsed) =>
      if c !in x.inbox then s
      else Run(s, step.atLeft, Installing(accepts, x, c), HandleConfig(accepts, x.e, c, key, elapsed))
    case Fire(_, c) =>
      if c !in x.pending then s
      else Run(s, step.atLeft, x.(pending := x.pending - multiset{c}), Tick(x.e, c))
  }

  function Start(state: LaneState): Node {
    Node(Endpoint(state, 0, 0, false, None, None, None, None), {}, multiset{}, [], [])
  }

  function Exec(accepts: Key -> bool, l: LaneState, r: LaneState, steps: seq<Step>): System {
    if steps == [] then System(Start(l), Start(r))
    else Next(accepts, Exec(accepts, l, r, steps[..|steps| - 1]), steps[|steps| - 1])
  }

  lemma ExecOne(accepts: Key -> bool, l: LaneState, r: LaneState, step: Step)
    ensures Exec(accepts, l, r, [step]) == Next(accepts, System(Start(l), Start(r)), step)
  {
    assert [step][..0] == [];
  }

  lemma ExecStep(accepts: Key -> bool, l: LaneState, r: LaneState, steps: seq<Step>, n: nat)
    requires n < |steps|
    ensures Exec(accepts, l, r, steps[..n + 1]) == Next(accepts, Exec(accepts, l, r, steps[..n]), steps[n])
  {
    assert steps[..n + 1][..n] == steps[..n];
  }

  /** Any further steps from any state. */
  function Resume(accepts: Key -> bool, s: System, steps: seq<Step>): System
    decreases |steps|
  {
    if steps == [] then s else Resume(accepts, Next(accepts, s, steps[0]), steps[1..])
  }

  lemma {:induction false} ExecThenResume(accepts: Key -> bool, l: LaneState, r: LaneState, steps: seq<Step>,
                                          further: seq<Step>)
    ensures Resume(accepts, Exec(accepts, l, r, steps), further) == Exec(accepts, l, r, steps + further)
    decreases |further|
  {
    if further == [] {
      assert steps + further == steps;
    } else {
      var longer := steps + [further[0]];
      assert longer[..|steps|] == steps;
      assert longer + further[1..] == steps + further;
      ExecThenResume(accepts, l, r, longer, further[1..]);
    }
  }

  // ---- what one step does, seen from the acting node and from its peer ----

  /** The key with which a step starts an exchange at the acting node, if it starts one. */
  function Started(accepts: Key -> bool, s: System, step: Step): Option<Key> {
    var x := At(s, step.atLeft);
    match step
    case RotateKey(_, key, elapsed) => if MayRotate(x.e, elapsed) then Some(key) else None
    case GoDegraded(_) => if Ready(x.e) then Some(INVALID) else None
    case Deliver(_, c, key, elapsed) =>
      if c in x.inbox && !c.ack && Processes(accepts, x.e, c) && MayRotate(TakeUp(x.e, c), elapsed) then Some(key)
          else None
    case Fire(_, _) => None
  }

  /** The request whose key a step installs at the acting node, if it installs one. */
  function Taken(accepts: Key -> bool, s: System, step: Step): Option<Config> {
    var x := At(s, step.atLeft);
    if step.Deliver? && step.c in x.inbox && !step.c.ack && step.c.enabled && Processes(accepts, x.e, step.c)
    then Some(step.c) else None
  }

  /** Further steps in which one side starts no exchange. */
  predicate StartsNothing(accepts: Key -> bool, s: System, steps: seq<Step>, atLeft: bool)
    decreases |steps|
  {
    steps != [] ==>
      && (steps[0].atLeft == atLeft ==> Started(accepts, s, steps[0]).None?)
      && StartsNothing(accepts, Next(accepts, s, steps[0]), steps[1..], atLeft)
  }

  /** `x` announces `k` under a fresh counter, and stages it if an AEAD could be built. */
  ghost predicate Announced(accepts: Key -> bool, x: Node, x': Node, y': Node, k: Key, request: Config) {
    && request.key == k && !request.ack && request.counter == x.e.configCounter + 1 == x'.e.configCounter
    && (accepts(k) && k != INVALID ==> request.enabled) && (x'.e.state.Degraded? ==> !request.enabled)
    && x'.e.retransmitCount == 0 && x'.e.currentSelf == x.e.currentSelf
    && x'.e.nextSelf == (if accepts(k) then Some(k) else x.e.nextSelf)
    && x'.pending == x.pending + multiset{request} && x'.sent == x.sent + [request]
    && request in y'.inbox
  }

  /** An acknowledgement of the latest request puts what is staged into use. */
  ghost predicate Promoted(x: Node, x': Node) {
    && (exists c :: c in x.inbox && c.ack && c.counter == x.e.configCounter)
    && x'.e.configCounter == x.e.configCounter && x'.e.retransmitCount == 0
    && x'.e.currentSelf == (if x.e.nextSelf.Some? then x.e.nextSelf else x.e.currentSelf) && x'.e.nextSelf == None
    && x'.pending == x.pending && x'.sent == x.sent
  }

  /** The exchange stands still, except that a tick may be used up. */
  ghost predicate Idled(x: Node, x': Node) {
    && x'.e.configCounter == x.e.configCounter && x'.e.retransmitCount == x.e.retransmitCount
    && x'.e.currentSelf == x.e.currentSelf && x'.e.nextSelf == x.e.nextSelf
    && x'.pending <= x.pending && x'.sent == x.sent
  }

  /** A tick sends the latest request once more and is scheduled again. */
  ghost predicate Resent(x: Node, x': Node, c: Config) {
    && c in x.pending && c.counter == x.e.configCounter && c.key != SelfKey(x.e)
    && x.e.retransmitCount < MAX_RETRANSMISSION_ATTEMPTS
    && x'.e == x.e.(retransmitCount := x.e.retransmitCount + 1)
    && x'.pending == x.pending && x'.sent == x.sent + [c]
  }

  /** What the frames sent by `x` are: requests among `requests`, and answers to what it received. */
  ghost predicate Carried(x: Node, x': Node, y: Node, y': Node, requests: set<Config>) {
    && x'.inbox == x.inbox && (x.e.state.Degraded? ==> x'.e.state.Degraded?)
    && y.inbox <= y'.inbox && y' == y.(inbox := y'.inbox)
    && (forall c :: c in y'.inbox && c !in y.inbox && !c.ack ==> c in requests)
    && (forall c :: c in y'.inbox && c !in y.inbox && c.ack ==> !x.e.state.Degraded? && c.(ack := false) in x.inbox)
  }

  /** The receive slots and the record of installs move on by one request, or not at all. */
  ghost predicate Took(x: Node, x': Node, y: Node, y': Node, taken: Option<Config>) {
    && (forall c :: c in y'.inbox && c !in y.inbox && c.ack && c.enabled ==> taken == Some(c.(ack := false)))
    && match taken
       case None =>
         x'.installs == x.installs && x'.e.currentPeer == x.e.currentPeer && x'.e.prevPeer == x.e.prevPeer
       case Some(c) =>
         && c in x.inbox && !c.ack && c.enabled && !x.e.state.Degraded?
         && x'.installs == x.installs + [c] && x'.e.currentPeer == Some(c.key) && x'.e.prevPeer == x.e.currentPeer
  }

  /** `y` has at some time installed `k` as its receive key. */
  predicate Installed(y: Node, k: Key) {
    exists i :: 0 <= i < |y.installs| && y.installs[i].key == k
  }

  /**
   Frames on their way: requests of `x` carry counters it has used, acknowledgements answer
   requests, ticks repeat them.
   */
  ghost predicate Mail(x: Node, y: Node) {
    && (forall c :: c in y.inbox && !c.ack ==> c.counter <= x.e.configCounter)
    && (forall c :: c in x.inbox && c.ack ==> c.(ack := false) in y.inbox)
    && (forall c :: c in x.pending ==> c in y.inbox && !c.ack)
  }

  /** One of the four things a step does to the exchange of the acting node. */
  ghost predicate Acted(accepts: Key -> bool, x: Node, x': Node, y: Node, y': Node, started: Option<Key>) {
    match started
    case Some(k) => exists request :: Announced(accepts, x, x', y', k, request) && Carried(x, x', y, y', {request})
    case None =>
      || (Carried(x, x', y, y', {}) && (Idled(x, x') || Promoted(x, x')))
      || (exists c :: Resent(x, x', c) && Carried(x, x', y, y', {c}))
  }

  /** What a step does: to the exchange of the acting node, and to its receive slots. */
  ghost predicate Stepped(accepts: Key -> bool, x: Node, x': Node, y: Node, y': Node, started: Option<Key>,
                          taken: Option<Config>)
  {
    Acted(accepts, x, x', y, y', started) && Took(x, x', y, y', taken)
  }

  lemma OneRequest(c: Config)
    requires !c.ack
    ensures Requests([c]) == [c] && Elements([c]) == {c} && multiset([c]) == multiset{c}
  {
    assert [c][1..] == [];
  }

  lemma OneAck(c: Config)
    requires c.ack
    ensures Requests([c]) == [] && Elements([c]) == {c}
  {
    assert [c][1..] == [];
  }

  lemma AnnounceActs(accepts: Key -> bool, x: Node, y: Node, f: Effect, k: Key, c: Config)
    requires f.sent == [c] && f.ticks == [c] && !c.ack && c.key == k
    requires c.counter == f.e.configCounter == x.e.configCounter + 1 && f.e.retransmitCount == 0
    requires f.e.currentSelf == x.e.currentSelf && f.e.nextSelf == if accepts(k) then Some(k) else x.e.nextSelf
    requires (accepts(k) && k != INVALID ==> c.enabled) && (f.e.state.Degraded? ==> !c.enabled)
    requires x.e.state.Degraded? ==> f.e.state.Degraded?
    requires f.e.currentPeer == x.e.currentPeer && f.e.prevPeer == x.e.prevPeer
    ensures Stepped(accepts, x, Ran(x, f), y, Reached(y, f), Some(k), None)
  {
    OneRequest(c);
    assert Announced(accepts, x, Ran(x, f), Reached(y, f), k, c);
    assert Carried(x, Ran(x, f), y, Reached(y, f), {c});
  }

  lemma SilentActs(accepts: Key -> bool, x: Node, y: Node, f: Effect)
    requires f.sent == [] && f.ticks == [] && (x.e.state.Degraded? ==> f.e.state.Degraded?)
    requires f.e == x.e.(state := f.e.state, stamped := f.e.stamped)
    ensures Idled(x, Ran(x, f)) && Carried(x, Ran(x, f), y, Reached(y, f), {})
    ensures Stepped(accepts, x, Ran(x, f), y, Reached(y, f), None, None)
  {
    assert Idled(x, Ran(x, f));
    assert Carried(x, Ran(x, f), y, Reached(y, f), {});
  }

  lemma RotateActs(accepts: Key -> bool, x: Node, y: Node, key: Key, elapsed: bool)
    ensures var f := Rotate(accepts, x.e, key, elapsed);
      Stepped(accepts, x, Ran(x, f), y, Reached(y, f), if MayRotate(x.e, elapsed) then Some(key) else None, None)
  {
    var f := Rotate(accepts, x.e, key, elapsed);
    if MayRotate(x.e, elapsed) {
      AnnounceActs(accepts, x, y, f, key, f.sent[0]);
    } else {
      SilentActs(accepts, x, y, f);
    }
  }

  /** What a rotation that is due does, in full. */
  lemma RotationStep(accepts: Key -> bool, s: System, atLeft: bool, key: Key, elapsed: bool)
    requires MayRotate(At(s, atLeft).e, elapsed)
    ensures var s' := Next(accepts, s, RotateKey(atLeft, key, elapsed));
      var x, x', y, y' := At(s, atLeft), At(s', atLeft), At(s, !atLeft), At(s', !atLeft);
      var c := Config(accepts(key), false, x.e.configCounter + 1, key);
      && x' == Node(Rotate(accepts, x.e, key, elapsed).e, x.inbox, x.pending + multiset{c}, x.installs, x.sent + [c])
      && y' == y.(inbox := y.inbox + {c})
  {
    OneRequest(Config(accepts(key), false, At(s, atLeft).e.configCounter + 1, key));
  }

  lemma AckActs(accepts: Key -> bool, x: Node, y: Node, c: Config)
    requires c in x.inbox && c.ack
    ensures var f := Effect(HandleAck(x.e, c), [], []); Stepped(accepts, x, Ran(x, f), y, Reached(y, f), None, None)
  {
    var f := Effect(HandleAck(x.e, c), [], []);
    assert Carried(x, Ran(x, f), y, Reached(y, f), {});
    if c.counter == x.e.configCounter {
      assert Promoted(x, Ran(x, f));
    } else {
      assert Idled(x, Ran(x, f));
    }
  }

  /** Taking up a request installs its key and answers it. */
  lemma TakeUpActs(accepts: Key -> bool, x: Node, y: Node, c: Config, f: Effect)
    requires c in x.inbox && !c.ack && Processes(accepts, x.e, c) && f == Effect(TakeUp(x.e, c), [c.(ack := true)], [])
    ensures var x', y' := Ran(Installing(accepts, x, c), f), Reached(y, f);
      Idled(x, x') && Carried(x, x', y, y', {}) && Took(x, x', y, y', if c.enabled then Some(c) else None)
  {
    OneAck(c.(ack := true));
  }

  /** First the request is taken up, then an exchange of one's own may be started. */
  lemma TakeUpThenStart(accepts: Key -> bool, x: Node, y: Node, c: Config, key: Key, elapsed: bool)
    requires c in x.inbox && !c.ack && Processes(accepts, x.e, c)
    ensures var f := HandleRequest(accepts, x.e, c, key, elapsed);
      Stepped(accepts, x, Ran(Installing(accepts, x, c), f), y, Reached(y, f),
              if MayRotate(TakeUp(x.e, c), elapsed) then Some(key) else None, if c.enabled then Some(c) else None)
  {
    var x0, f1 := Installing(accepts, x, c), Effect(TakeUp(x.e, c), [c.(ack := true)], []);
    var f2, f := Rotate(accepts, f1.e, key, elapsed), HandleRequest(accepts, x.e, c, key, elapsed);
    TakeUpActs(accepts, x, y, c, f1);
    TwoStages(x0, y, f1, f2, f);
    if MayRotate(f1.e, elapsed) {
      AnnounceActs(accepts, Ran(x0, f1), Reached(y, f1), f2, key, f2.sent[0]);
      Chained(accepts, x, Ran(x0, f1), Ran(x0, f), y, Reached(y, f1), Reached(y, f), Some(key),
        if c.enabled then Some(c) else None);
    } else {
      SilentActs(accepts, Ran(x0, f1), Reached(y, f1), f2);
      Chained(accepts, x, Ran(x0, f1), Ran(x0, f), y, Reached(y, f1), Reached(y, f), None,
        if c.enabled then Some(c) else None);
    }
  }

  lemma Chained(accepts: Key -> bool, x: Node, x1: Node, x2: Node, y: Node, y1: Node, y2: Node, started: Option<Key>,
                taken: Option<Config>)
    requires Idled(x, x1) && x1.pending == x.pending && Carried(x, x1, y, y1, {}) && Took(x, x1, y, y1, taken)
    requires Stepped(accepts, x1, x2, y1, y2, started, None) && !x.e.state.Degraded?
    requires started.None? ==> Idled(x1, x2) && Carried(x1, x2, y1, y2, {})
    ensures Stepped(accepts, x, x2, y, y2, started, taken)
  {
    if started.Some? {
      var c :| Announced(accepts, x1, x2, y2, started.value, c) && Carried(x1, x2, y1, y2, {c});
      assert Announced(accepts, x, x2, y2, started.value, c);
      assert Carried(x, x2, y, y2, {c});
    } else {
      assert Idled(x, x2) && Carried(x, x2, y, y2, {});
    }
  }

  lemma TwoStages(x: Node, y: Node, f1: Effect, f2: Effect, f: Effect)
    requires |f1.sent| == 1 && f1.sent[0].ack && f1.ticks == []
    requires f == Effect(f2.e, f1.sent + f2.sent, f2.ticks)
    ensures Ran(Ran(x, f1), f2) == Ran(x, f) && Reached(Reached(y, f1), f2) == Reached(y, f)
  {
    assert f1.sent[1..] == [] && Requests(f1.sent) == [];
    assert (f1.sent + f2.sent)[1..] == f2.sent && Requests(f.sent) == Requests(f2.sent);
    assert x.sent + [] + Requests(f2.sent) == x.sent + Requests(f2.sent);
    assert Elements(f.sent) == Elements(f1.sent) + Elements(f2.sent);
    assert y.inbox + Elements(f1.sent) + Elements(f2.sent) == y.inbox + Elements(f.sent);
    assert x.pending + multiset(f1.ticks) + multiset(f2.ticks) == x.pending + multiset(f.ticks);
  }

  lemma FireActs(accepts: Key -> bool, x: Node, y: Node, c: Config)
    requires c in x.pending && !c.ack
    ensures var f, x0 := Tick(x.e, c), x.(pending := x.pending - multiset{c});
      Stepped(accepts, x, Ran(x0, f), y, Reached(y, f), None, None)
  {
    var f, x0 := Tick(x.e, c), x.(pending := x.pending - multiset{c});
    if f.sent == [] {
      assert Idled(x, Ran(x0, f)) && Carried(x, Ran(x0, f), y, Reached(y, f), {});
    } else {
      assert f.sent == [c];
      OneRequest(c);
      assert x.pending - multiset{c} + multiset{c} == x.pending;
      assert Resent(x, Ran(x0, f), c) && Carried(x, Ran(x0, f), y, Reached(y, f), {c});
    }
  }

  lemma StillActs(accepts: Key -> bool, x: Node, y: Node)
    ensures Stepped(accepts, x, x, y, y, None, None)
  {
    assert Idled(x, x) && Carried(x, x, y, y, {});
  }

  /** Every step is one of these, for the key it starts an exchange with and the request it takes in. */
  lemma StepActs(accepts: Key -> bool, s: System, step: Step)
    requires Mail(At(s, step.atLeft), At(s, !step.atLeft))
    ensures var s' := Next(accepts, s, step);
      Stepped(accepts, At(s, step.atLeft), At(s', step.atLeft), At(s, !step.atLeft), At(s', !step.atLeft),
              Started(accepts, s, step), Taken(accepts, s, step))
  {
    var x, y := At(s, step.atLeft), At(s, !step.atLeft);
    match step
    case RotateKey(_, key, elapsed) => RotateActs(accepts, x, y, key, elapsed);
    case GoDegraded(_) =>
      if Ready(x.e) {
        AnnounceActs(accepts, x, y, Degrade(accepts, x.e), INVALID, Degrade(accepts, x.e).sent[0]);
      } else {
        StillActs(accepts, x, y);
      }
    case Deliver(_, c, key, elapsed) =>
      if c !in x.inbox {
        StillActs(accepts, x, y);
      } else if c.ack {
        AckActs(accepts, x, y, c);
      } else if Processes(accepts, x.e, c) {
        TakeUpThenStart(accepts, x, y, c, key, elapsed);
      } else {
        SilentActs(accepts, x, y, HandleRequest(accepts, x.e, c, key, elapsed));
      }
    case Fire(_, c) =>
      if c in x.pending {
        FireActs(accepts, x, y, c);
      } else {
        StillActs(accepts, x, y);
      }
  }

  // ---- the mail is in order in every run ----

  lemma MailKept(accepts: Key -> bool, x: Node, x': Node, y: Node, y': Node, started: Option<Key>)
    requires Mail(x, y) && Mail(y, x) && Acted(accepts, x, x', y, y', started)
    ensures Mail(x', y') && Mail(y', x')
  {}

  lemma {:induction false} MailAlways(accepts: Key -> bool, l: LaneState, r: LaneState, steps: seq<Step>)
    ensures var s := Exec(accepts, l, r, steps); Mail(s.left, s.right) && Mail(s.right, s.left)
    decreases |steps|
  {
    if steps != [] {
      var n := |steps| - 1;
      MailAlways(accepts, l, r, steps[..n]);
      MailStep(accepts, Exec(accepts, l, r, steps[..n]), steps[n]);
    }
  }

  lemma MailStep(accepts: Key -> bool, s: System, step: Step)
    requires Mail(s.left, s.right) && Mail(s.right, s.left)
    ensures var s' := Next(accepts, s, step); Mail(s'.left, s'.right) && Mail(s'.right, s'.left)
  {
    var s' := Next(accepts, s, step);
    StepActs(accepts, s, step);
    MailKept(accepts, At(s, step.atLeft), At(s', step.atLeft), At(s, !step.atLeft), At(s', !step.atLeft),
             Started(accepts, s, step));
  }
}
