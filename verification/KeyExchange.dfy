/** One endpoint of the ExpressLane key exchange: its state and its handlers as functions. */
module KeyExchange {
  import opened Wrappers
  import opened Aead

  datatype LaneState = Disabled | WaitingForClient | Inactive | Active | Degraded

  const MAX_RETRANSMISSION_ATTEMPTS: nat := 5

  /** A config frame; an acknowledgement is the same frame sent back with `ack` set. */
  datatype Config = Config(enabled: bool, ack: bool, counter: nat, key: Key)

  datatype Endpoint = Endpoint(
    state: LaneState,
    configCounter: nat,
    retransmitCount: nat,
    stamped: bool,                 // a rotation time is recorded
    currentSelf: Option<Key>,
    nextSelf: Option<Key>,
    currentPeer: Option<Key>,
    prevPeer: Option<Key>)

  /** What a handler leaves behind: the new state, frames for the peer, and ticks to be called back with. */
  datatype Effect = Effect(e: Endpoint, sent: seq<Config>, ticks: seq<Config>)

  /** The current sending key, or the sentinel when there is none. */
  function SelfKey(e: Endpoint): Key {
    if e.currentSelf.Some? then e.currentSelf.value else INVALID
  }

  predicate HasValidKeys(e: Endpoint) {
    Usable(e.currentSelf) && Usable(e.currentPeer)
  }

  predicate Supported(e: Endpoint) {
    !e.state.Disabled? && !e.state.WaitingForClient?
  }

  predicate Ready(e: Endpoint) {
    Supported(e) && e.state.Active? && HasValidKeys(e)
  }

  /** `elapsed` is whether the clock finds the rotation interval over. */
  predicate MayRotate(e: Endpoint, elapsed: bool) {
    Supported(e) && !e.state.Degraded? && (!e.stamped || elapsed)
  }

  /** Stage `key` if an AEAD can be built for it, and announce the outcome either way. */
  function Rotate(accepts: Key -> bool, e: Endpoint, key: Key, elapsed: bool): Effect {
    if !MayRotate(e, elapsed) then Effect(e, [], [])
    else
      var config := Config(accepts(key), false, e.configCounter + 1, key);
      Effect(e.(nextSelf := if accepts(key) then Some(key) else e.nextSelf,
                configCounter := e.configCounter + 1, stamped := true, retransmitCount := 0),
             [config], [config])
  }

  /** Fall back for good and tell the peer, reusing the exchange with the sentinel key. */
  function Degrade(accepts: Key -> bool, e: Endpoint): Effect {
    var config := Config(false, false, e.configCounter + 1, INVALID);
    Effect(e.(state := Degraded, nextSelf := if accepts(INVALID) then Some(INVALID) else e.nextSelf,
              configCounter := e.configCounter + 1, retransmitCount := 0),
           [config], [config])
  }

  function Promote(e: Endpoint): Endpoint {
    if e.nextSelf.Some? then e.(currentSelf := e.nextSelf, nextSelf := None) else e
  }

  function HandleAck(e: Endpoint, c: Config): Endpoint {
    if c.counter != e.configCounter then e
    else
      var p := Promote(e).(retransmitCount := 0);
      if !p.state.Degraded? && HasValidKeys(p) then p.(state := Active) else p
  }

  /** Whether a request is taken up at all: a degraded endpoint ignores it, an unusable key is an error. */
  predicate Processes(accepts: Key -> bool, e: Endpoint, c: Config) {
    !e.state.Degraded? && (c.enabled ==> accepts(c.key))
  }

  /** The request's effect on the receiving side, before the acknowledgement goes out. */
  function TakeUp(e: Endpoint, c: Config): Endpoint {
    var woken := if e.state.WaitingForClient? then e.(state := Inactive) else e;
    if !c.enabled then woken.(state := Inactive)
    else
      var keyed := woken.(currentPeer := Some(c.key), prevPeer := woken.currentPeer);
      if HasValidKeys(keyed) then keyed.(state := Active) else keyed
  }

  function Ignore(e: Endpoint, c: Config): Endpoint {
    if e.state.WaitingForClient? then e.(state := Inactive) else e
  }

  function HandleRequest(accepts: Key -> bool, e: Endpoint, c: Config, key: Key, elapsed: bool): Effect {
    if !Processes(accepts, e, c) then Effect(Ignore(e, c), [], [])
    else
      var r := Rotate(accepts, TakeUp(e, c), key, elapsed);
      r.(sent := [c.(ack := true)] + r.sent)
  }

  function HandleConfig(accepts: Key -> bool, e: Endpoint, c: Config, key: Key, elapsed: bool): Effect {
    if c.ack then Effect(HandleAck(e, c), [], []) else HandleRequest(accepts, e, c, key, elapsed)
  }

  /** A retransmission tick for `c`: stale, already acknowledged, given up, or sent once more. */
  function Tick(e: Endpoint, c: Config): Effect {
    if !Supported(e) || c.counter != e.configCounter || c.key == SelfKey(e) then Effect(e, [], [])
    else if e.retransmitCount >= MAX_RETRANSMISSION_ATTEMPTS then
      Effect(if e.state.Degraded? then e else e.(state := Inactive, stamped := false), [], [])
    else Effect(e.(retransmitCount := e.retransmitCount + 1), [c], [c])
  }

  // ---- the wire version a frame carries beside its config ----

  /**
   What comes of a version byte a peer sent, for a build that knows versions 1 to `max`: a byte it does
   not know counts as its own highest version.
   */
  function Negotiated(max: nat, peer: nat): nat {
    if peer == 0 || peer > max then max else peer
  }

  /** The version after a frame arrived; `dataSent` is whether a data packet has gone out already. */
  function Settled(max: nat, version: nat, dataSent: bool, peer: nat): nat {
    if Negotiated(max, peer) != version && !dataSent then Negotiated(max, peer) else version
  }

  /** What a request carries: the version in force, or the highest one as long as there is none. */
  function Advertised(max: nat, version: nat): nat {
    if version == 0 then max else version
  }

  /** The versions on the frames a handler puts out. */
  function Stamps(frames: seq<Config>, max: nat, version: nat): seq<nat> {
    seq(|frames|, i requires 0 <= i < |frames| => if frames[i].ack then version else Advertised(max, version))
  }

  datatype Refusal = InvalidState | InvalidConnectionType | IsDegraded | NewCipherFailed

  /** The handlers as the connection runs them, mutating its fields; they refuse to run out of turn. */
  class Connection {
    const accepts: Key -> bool
    const maxVersion: nat
    var online: bool
    var version: nat
    var state: LaneState
    var configCounter: nat
    var retransmitCount: nat
    var stamped: bool
    var currentSelf: Option<Key>
    var nextSelf: Option<Key>
    var currentPeer: Option<Key>
    var prevPeer: Option<Key>
    var sent: seq<Config>
    var ticks: seq<Config>
    var sentVersions: seq<nat>     // the version on each frame sent
    var tickVersions: seq<nat>     // and on each frame a tick holds

    function Meaning(): Endpoint
      reads this`state, this`configCounter, this`retransmitCount, this`stamped, this`currentSelf, this`nextSelf
      reads this`currentPeer, this`prevPeer
    {
      Endpoint(state, configCounter, retransmitCount, stamped, currentSelf, nextSelf, currentPeer, prevPeer)
    }

    /** The handler changed the connection as `f` says: the state, and what it put out, in order. */
    twostate predicate Did(f: Effect)
      reads this`state, this`configCounter, this`retransmitCount, this`stamped, this`currentSelf, this`nextSelf
      reads this`currentPeer, this`prevPeer, this`sent, this`ticks
    {
      Meaning() == f.e && sent == old(sent) + f.sent && ticks == old(ticks) + f.ticks
    }

    constructor (accepts: Key -> bool, maxVersion: nat, state: LaneState, online: bool)
      ensures this.online == online && Meaning() == Endpoint(state, 0, 0, false, None, None, None, None) && sent == []
          && ticks == []
      ensures this.accepts == accepts && this.maxVersion == maxVersion && version == 0
      ensures sentVersions == [] && tickVersions == []
    {
      this.accepts := accepts;
      this.maxVersion := maxVersion;
      version, sentVersions, tickVersions := 0, [], [];
      this.state := state;
      this.online := online;
      configCounter, retransmitCount, stamped := 0, 0, false;
      currentSelf, nextSelf, currentPeer, prevPeer := None, None, None, None;
      sent, ticks := [], [];
    }

    method StageAndAnnounce(key: Key, elapsed: bool) returns (r: Result<(), Refusal>)
      modifies this`state, this`configCounter, this`retransmitCount, this`stamped, this`currentSelf, this`nextSelf
      modifies this`currentPeer, this`prevPeer, this`sent, this`ticks
      ensures r == (if old(state).Degraded? then Err(IsDegraded) else Ok(()))
      ensures Did(Rotate(accepts, old(Meaning()), key, elapsed))
    {
      if state.Disabled? || state.WaitingForClient? {
        return Ok(());
      }
      if state.Degraded? {
        return Err(IsDegraded);
      }
      if stamped && !elapsed {
        return Ok(());
      }
      var enabled := accepts(key);
      if enabled {
        nextSelf := Some(key);
      }
      configCounter := configCounter + 1;
      var config := Config(enabled, false, configCounter, key);
      sent := sent + [config];
      stamped := true;
      retransmitCount := 0;
      ticks := ticks + [config];
      return Ok(());
    }

    method AnnounceDegraded()
      modifies this`state, this`configCounter, this`retransmitCount, this`stamped, this`currentSelf, this`nextSelf
      modifies this`currentPeer, this`prevPeer, this`sent, this`ticks
      ensures Did(Degrade(accepts, old(Meaning())))
    {
      state := Degraded;
      if accepts(INVALID) {
        nextSelf := Some(INVALID);
      }
      configCounter := configCounter + 1;
      var config := Config(false, false, configCounter, INVALID);
      sent := sent + [config];
      retransmitCount := 0;
      ticks := ticks + [config];
    }

    method AcknowledgedBy(config: Config)
      modifies this`state, this`configCounter, this`retransmitCount, this`stamped, this`currentSelf, this`nextSelf
      modifies this`currentPeer, this`prevPeer, this`sent, this`ticks
      ensures Did(Effect(HandleAck(old(Meaning()), config), [], []))
    {
      if config.counter == configCounter {
        if nextSelf.Some? {
          currentSelf := nextSelf;
          nextSelf := None;
        }
        retransmitCount := 0;
        if !state.Degraded? && Usable(currentSelf) && Usable(currentPeer) {
          state := Active;
        }
      }
    }

    method TakeUpRequest(config: Config) returns (processed: bool)
      modifies this`state, this`configCounter, this`retransmitCount, this`stamped, this`currentSelf, this`nextSelf
      modifies this`currentPeer, this`prevPeer, this`sent, this`ticks
      ensures processed == Processes(accepts, old(Meaning()), config)
      ensures Did(if processed then Effect(TakeUp(old(Meaning()), config), [config.(ack := true)], [])
                  else Effect(Ignore(old(Meaning()), config), [], []))
    {
      if state.Degraded? {
        return false;
      }
      if state.WaitingForClient? {
        state := Inactive;
      }
      if config.enabled {
        if !accepts(config.key) {
          return false;
        }
        prevPeer := currentPeer;
        currentPeer := Some(config.key);
        if Usable(currentSelf) && Usable(currentPeer) {
          state := Active;
        }
      } else {
        state := Inactive;
      }
      sent := sent + [config.(ack := true)];
      return true;
    }

    method TakeInConfig(config: Config, key: Key, elapsed: bool) returns (r: Result<(), Refusal>)
      modifies this`state, this`configCounter, this`retransmitCount, this`stamped, this`currentSelf, this`nextSelf
      modifies this`currentPeer, this`prevPeer, this`sent, this`ticks
      ensures r == if !online then Err(InvalidState)
                   else if !config.ack && !old(state).Degraded? && config.enabled && !accepts(config.key)
                   then Err(NewCipherFailed)
                   else Ok(())
      ensures Did(if !online then Effect(old(Meaning()), [], [])
          else HandleConfig(accepts, old(Meaning()), config, key, elapsed))
    {
      if !online {
        return Err(InvalidState);
      }
      if config.ack {
        AcknowledgedBy(config);
        return Ok(());
      }
      var processed := TakeUpRequest(config);
      if !processed {
        return if state.Degraded? then Ok(()) else Err(NewCipherFailed);
      }
      var _ := StageAndAnnounce(key, elapsed);
      return Ok(());
    }

    method Retransmit(last: Config) returns (r: Result<(), Refusal>)
      modifies this`state, this`configCounter, this`retransmitCount, this`stamped, this`currentSelf, this`nextSelf
      modifies this`currentPeer, this`prevPeer, this`sent, this`ticks
      ensures r == if !online then Err(InvalidState) else if !Supported(old(Meaning())) then Err(InvalidConnectionType)
          else Ok(())
      ensures Did(if !online then Effect(old(Meaning()), [], []) else Tick(old(Meaning()), last))
    {
      if !online {
        return Err(InvalidState);
      }
      if state.Disabled? || state.WaitingForClient? {
        return Err(InvalidConnectionType);
      }
      if last.counter != configCounter {
        return Ok(());
      }
      if last.key == (if currentSelf.Some? then currentSelf.value else INVALID) {
        return Ok(());
      }
      if retransmitCount >= MAX_RETRANSMISSION_ATTEMPTS {
        if state.Degraded? {
          return Ok(());
        }
        state := Inactive;
        stamped := false;
        return Ok(());
      }
      retransmitCount := retransmitCount + 1;
      ticks := ticks + [last];
      sent := sent + [last];
      return Ok(());
    }

    /** A version that differs is adopted, unless data has gone out under the one in force. */
    method Negotiate(peerVersion: nat, dataSent: bool)
      modifies this`version
      ensures version == Settled(maxVersion, old(version), dataSent, peerVersion)
    {
      var negotiated := if peerVersion == 0 || peerVersion > maxVersion then maxVersion else peerVersion;
      if negotiated != version {
        if !dataSent {
          version := negotiated;
        }
      }
    }

    // The handlers with the versions their frames carry: a request the version in force or else the
    // highest known, an acknowledgement the version in force, a repeated frame the version it had.

    method RotateExpresslaneKey(key: Key, elapsed: bool) returns (r: Result<(), Refusal>)
      modifies this
      ensures r == (if old(state).Degraded? then Err(IsDegraded) else Ok(()))
      ensures version == old(version) && online == old(online)
      ensures var f := Rotate(accepts, old(Meaning()), key, elapsed);
        && Did(f)
        && sentVersions == old(sentVersions) + Stamps(f.sent, maxVersion, version)
        && tickVersions == old(tickVersions) + Stamps(f.ticks, maxVersion, version)
    {
      var frames, again := |sent|, |ticks|;
      r := StageAndAnnounce(key, elapsed);
      Stamp(frames, again);
    }

    method SetExpresslaneDegraded()
      modifies this
      ensures version == old(version) && online == old(online)
      ensures var f := Degrade(accepts, old(Meaning()));
        && Did(f)
        && sentVersions == old(sentVersions) + Stamps(f.sent, maxVersion, version)
        && tickVersions == old(tickVersions) + Stamps(f.ticks, maxVersion, version)
    {
      var frames, again := |sent|, |ticks|;
      AnnounceDegraded();
      Stamp(frames, again);
    }

    method HandleExpresslaneConfig(config: Config, peerVersion: nat, dataSent: bool, key: Key, elapsed: bool)
      returns (r: Result<(), Refusal>)
      modifies this
      ensures online == old(online)
      ensures r == if !online then Err(InvalidState)
                   else if !config.ack && !old(state).Degraded? && config.enabled && !accepts(config.key)
                   then Err(NewCipherFailed)
                   else Ok(())
      ensures version == if online then Settled(maxVersion, old(version), dataSent, peerVersion) else old(version)
      ensures var f := if online then HandleConfig(accepts, old(Meaning()), config, key, elapsed)
                       else Effect(old(Meaning()), [], []);
        && Did(f)
        && sentVersions == old(sentVersions) + Stamps(f.sent, maxVersion, version)
        && tickVersions == old(tickVersions) + Stamps(f.ticks, maxVersion, version)
    {
      if online {
        Negotiate(peerVersion, dataSent);
      }
      var frames, again := |sent|, |ticks|;
      r := TakeInConfig(config, key, elapsed);
      Stamp(frames, again);
    }

    method ExpresslaneKeyShareTick(last: Config, lastVersion: nat) returns (r: Result<(), Refusal>)
      modifies this
      ensures version == old(version) && online == old(online)
      ensures r == if !online then Err(InvalidState) else if !Supported(old(Meaning())) then Err(InvalidConnectionType)
          else Ok(())
      ensures var f := if online then Tick(old(Meaning()), last) else Effect(old(Meaning()), [], []);
        && Did(f)
        && sentVersions == old(sentVersions) + seq(|f.sent|, _ => lastVersion)
        && tickVersions == old(tickVersions) + seq(|f.ticks|, _ => lastVersion)
    {
      var frames, again := |sent|, |ticks|;
      r := Retransmit(last);
      sentVersions := sentVersions + seq(|sent| - frames, _ => lastVersion);
      tickVersions := tickVersions + seq(|ticks| - again, _ => lastVersion);
    }

    /** Puts the versions on the frames from the given places on. */
    method Stamp(frames: nat, again: nat)
      requires frames <= |sent| && again <= |ticks|
      modifies this`sentVersions, this`tickVersions
      ensures sentVersions == old(sentVersions) + Stamps(sent[frames..], maxVersion, version)
      ensures tickVersions == old(tickVersions) + Stamps(ticks[again..], maxVersion, version)
    {
      sentVersions := sentVersions + Stamps(sent[frames..], maxVersion, version);
      tickVersions := tickVersions + Stamps(ticks[again..], maxVersion, version);
    }
  }
}
