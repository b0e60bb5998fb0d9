/**
 Two builds, each with its own highest wire version, settle on one over a network that may lose,
 duplicate and reorder their config frames. Only the version on a frame matters here.
 */
module VersionNegotiation {
  import opened KeyExchange
  import KeyNetwork
  import GraceKeys
  import Aead

  /**
   `version` is 0 while unknown. `heard` is whether a frame has arrived, `refused` how often a change of
   version was refused because data had gone out. Frames ever sent to this side stay in its inbox.
   */
  datatype Peer = Peer(max: nat, version: nat, heard: bool, dataSent: bool, refused: nat, inbox: set<nat>)

  datatype System = System(left: Peer, right: Peer)

  /** `answers` is whether the frame is a request that gets acknowledged. Data needs the peer's key, so a frame. */
  datatype Step = Announce(atLeft: bool) | Deliver(atLeft: bool, version: nat, answers: bool) | SendData(atLeft: bool)

  function At(s: System, atLeft: bool): Peer {
    if atLeft then s.left else s.right
  }

  function Put(x: Peer, y: Peer, atLeft: bool): System {
    if atLeft then System(x, y) else System(y, x)
  }

  function Sends(y: Peer, version: nat): Peer {
    y.(inbox := y.inbox + {version})
  }

  function Hears(x: Peer, version: nat): Peer {
    x.(version := Settled(x.max, x.version, x.dataSent, version), heard := true,
       refused := x.refused + if Negotiated(x.max, version) != x.version && x.dataSent then 1 else 0)
  }

  function Next(s: System, step: Step): System {
    var x, y := At(s, step.atLeft), At(s, !step.atLeft);
    match step
    case Announce(_) => Put(x, Sends(y, Advertised(x.max, x.version)), step.atLeft)
    case Deliver(_, version, answers) =>
      if version !in x.inbox then s
      else
        var x' := Hears(x, version);
        Put(x', if answers then Sends(y, x'.version) else y, step.atLeft)
    case SendData(_) => Put(if x.heard then x.(dataSent := true) else x, y, step.atLeft)
  }

  function Exec(a: nat, b: nat, steps: seq<Step>): System {
    if steps == [] then System(Peer(a, 0, false, false, 0, {}), Peer(b, 0, false, false, 0, {}))
    else Next(Exec(a, b, steps[..|steps| - 1]), steps[|steps| - 1])
  }

  function Lower(a: nat, b: nat): nat {
    if a < b then a else b
  }

  /** One side, talking to a build whose highest version is `other`. */
  ghost predicate Sound(x: Peer, max: nat, other: nat) {
    && x.max == max && x.version == (if x.heard then Lower(max, other) else 0)
    && (x.dataSent ==> x.heard) && x.refused == 0
    && forall v :: v in x.inbox ==> v == other || v == Lower(max, other)
  }

  lemma StepSound(s: System, step: Step, max: nat, other: nat)
    requires max > 0 && other > 0
    requires Sound(At(s, step.atLeft), max, other) && Sound(At(s, !step.atLeft), other, max)
    ensures Sound(At(Next(s, step), step.atLeft), max, other) && Sound(At(Next(s, step), !step.atLeft), other, max)
  {}

  /**
   In every run both sides that have heard from each other are at the lower of the two highest versions,
   a side that has not is at none, and no change of version is ever refused.
   */
  lemma {:induction false} BothSettleOnLower(a: nat, b: nat, steps: seq<Step>)
    requires a > 0 && b > 0
    ensures Sound(Exec(a, b, steps).left, a, b) && Sound(Exec(a, b, steps).right, b, a)
    decreases |steps|
  {
    if steps != [] {
      var n := |steps| - 1;
      BothSettleOnLower(a, b, steps[..n]);
      var left := steps[n].atLeft;
      StepSound(Exec(a, b, steps[..n]), steps[n], if left then a else b, if left then b else a);
    }
  }

  /** So once both have heard, they agree, whatever happened and whatever is still on its way. */
  lemma HeardSidesAgree(a: nat, b: nat, steps: seq<Step>)
    requires a > 0 && b > 0
    ensures var s := Exec(a, b, steps);
      s.left.heard && s.right.heard ==> s.left.version == s.right.version == Lower(a, b)
  {
    BothSettleOnLower(a, b, steps);
  }

  /** A build only ever settles on a version it knows: the peer's where it knows that, otherwise its highest. */
  lemma NegotiatedIsKnown(max: nat, peer: nat)
    requires max > 0
    ensures 1 <= Negotiated(max, peer) <= max
    ensures Negotiated(max, peer) == (if 1 <= peer <= max then peer else max)
  {}

  /** What a side announces next: its highest version until it has heard from the other, then the lower of the two. */
  lemma AnnouncedVersion(a: nat, b: nat, steps: seq<Step>, atLeft: bool)
    requires a > 0 && b > 0
    ensures var s := Exec(a, b, steps);
      At(Next(s, Announce(atLeft)), !atLeft).inbox == At(s, !atLeft).inbox +
        {if At(s, atLeft).heard then Lower(a, b) else if atLeft then a else b}
  {
    BothSettleOnLower(a, b, steps);
  }

  function Resume(s: System, steps: seq<Step>): System
    decreases |steps|
  {
    if steps == [] then s else Resume(Next(s, steps[0]), steps[1..])
  }

  /** From any state, whatever frames are on their way: once data is out the version never changes again. */
  lemma {:induction false} DataFixesVersion(s: System, further: seq<Step>, atLeft: bool)
    requires At(s, atLeft).dataSent
    ensures At(Resume(s, further), atLeft).dataSent
    ensures At(Resume(s, further), atLeft).version == At(s, atLeft).version
    decreases |further|
  {
    if further != [] {
      DataFixesVersion(Next(s, further[0]), further[1..], atLeft);
    }
  }

  /** Every frame the config handler puts out carries the version settled by the frame it handles. */
  lemma HandlerStamps(accepts: Aead.Key -> bool, e: Endpoint, c: Config, key: Aead.Key, elapsed: bool, x: Peer,
                      peer: nat)
    requires x.max > 0 && (x.dataSent ==> x.version > 0)
    ensures var sent, x' := HandleConfig(accepts, e, c, key, elapsed).sent, Hears(x, peer);
      && x'.version > 0 && |Stamps(sent, x.max, x'.version)| == |sent|
      && forall i :: 0 <= i < |sent| ==> Stamps(sent, x.max, x'.version)[i] == x'.version
  {}

  /** In the key exchange an endpoint is ready to send data only after it has taken up a request of its peer. */
  lemma ReadyMeansHeard(accepts: Aead.Key -> bool, l: LaneState, r: LaneState, steps: seq<KeyNetwork.Step>,
                        atLeft: bool)
    ensures var x := KeyNetwork.At(KeyNetwork.Exec(accepts, l, r, steps), atLeft); Ready(x.e) ==> x.installs != []
  {
    GraceKeys.RunLastTwo(accepts, l, r, steps, atLeft);
  }
}
