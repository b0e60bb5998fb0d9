/** The session object itself, one call at a time. */
module ExpresslaneSession {
  import opened OnesComplement
  import opened Buffers
  import opened Words
  import opened Wrappers
  import opened Aead
  import opened Frames
  import opened ReplaySpec
  import opened ReplayWindowRing
  import opened SessionSpec

  class Session {
    const aead: Cipher
    const replay: ReplayWindow
    var version: Version
    var wireCounter: U64
    var packetsReceived: U64
    var currentSelf: Option<Key>
    var nextSelf: Option<Key>
    var currentPeer: Option<Key>
    var prevPeer: Option<Key>
    var hasSelf: bool
    var hasPeer: bool

    ghost predicate Valid()
      reads this, replay, replay.bitmap
    {
      && replay.Valid()
      && (hasSelf <==> Usable(currentSelf))
      && (hasPeer <==> Usable(currentPeer))
    }

    ghost function Meaning(): State
      reads this, replay
    {
      State(version, wireCounter, packetsReceived, replay.Meaning(),
            Keys(currentSelf, nextSelf, currentPeer, prevPeer), hasSelf, hasPeer)
    }

    constructor (aead: Cipher, version: Version)
      ensures Valid() && fresh(replay) && fresh(replay.bitmap) && this.aead == aead
      ensures Meaning() == State(version, 0, 0, EMPTY, Keys(None, None, None, None), false, false)
    {
      this.aead := aead;
      replay := new ReplayWindow();
      this.version := version;
      wireCounter, packetsReceived := 0, 0;
      currentSelf, nextSelf, currentPeer, prevPeer := None, None, None, None;
      hasSelf, hasPeer := false, false;
    }

    /** Refused once a packet has been sent, since the version selects the associated data. */
    method SetVersion(v: Version) returns (adopted: bool)
      requires Valid()
      modifies this`version
      ensures Valid()
      ensures adopted <==> wireCounter == 0
      ensures Meaning() == old(Meaning()).(version := if adopted then v else old(version))
    {
      if wireCounter > 0 {
        return false;
      }
      version := v;
      return true;
    }

    method UpdateNextSelfKey(key: Key) returns (r: Result<(), Error>)
      requires Valid()
      modifies this`nextSelf
      ensures Valid()
      ensures r == if aead.accepts(key) then Ok(()) else Err(NewCipherFailed)
      ensures nextSelf == if aead.accepts(key) then Some(key) else old(nextSelf)
    {
      if !aead.accepts(key) {
        return Err(NewCipherFailed);
      }
      nextSelf := Some(key);
      return Ok(());
    }

    method PromoteSelfKey()
      requires Valid()
      modifies this`currentSelf, this`nextSelf, this`hasSelf
      ensures Valid()
      ensures nextSelf == None
      ensures currentSelf == if old(nextSelf).Some? then old(nextSelf) else old(currentSelf)
    {
      if nextSelf.Some? {
        hasSelf := nextSelf.value != INVALID;
        currentSelf := nextSelf;
        nextSelf := None;
      }
    }

    method UpdatePeerKey(key: Key) returns (r: Result<(), Error>)
      requires Valid()
      modifies this`currentPeer, this`prevPeer, this`hasPeer
      ensures Valid()
      ensures r == if aead.accepts(key) then Ok(()) else Err(NewCipherFailed)
      ensures currentPeer == if aead.accepts(key) then Some(key) else old(currentPeer)
      ensures prevPeer == if aead.accepts(key) then old(currentPeer) else old(prevPeer)
    {
      if !aead.accepts(key) {
        return Err(NewCipherFailed);
      }
      hasPeer := key != INVALID;
      prevPeer := currentPeer;
      currentPeer := Some(key);
      return Ok(());
    }

    /** Two flag loads and no lock: yet exactly both current keys being real. */
    predicate HasValidKeys()
      reads this
    {
      hasSelf && hasPeer
    }

    method ReserveCounter() returns (counter: U64)
      requires Valid()
      modifies this`wireCounter
      ensures Valid() && Meaning() == old(Meaning()).(wireCounter := counter)
      ensures counter == wireCounter == Increment(old(wireCounter))
    {
      wireCounter := Increment(wireCounter);
      counter := wireCounter;
    }

    method AppendToWire(buf: Buffer, sid: SessionId, plain: Bytes, iv: Iv, encoded: bool) returns (r: Result<(), Error>)
      requires Valid()
      modifies this`wireCounter, buf
      ensures Valid()
      ensures var counter := Increment(old(wireCounter));
        var frame := SealFrame(aead, version, currentSelf, counter, sid, plain, iv, encoded);
        && r == (if frame.Ok? then Ok(()) else Err(frame.error))
        && buf.data == (if frame.Ok? then old(buf.data) + frame.value else old(buf.data))
        && Meaning() == old(Meaning()).(wireCounter := if |plain| > MAX_PLAINTEXT then old(wireCounter) else counter)
    {
      if |plain| > MAX_PLAINTEXT {
        return Err(PayloadTooLarge);
      }
      var flags := FlagsOf(encoded);
      var counter := ReserveCounter();
      var aad := BuildAad(version, sid, counter, flags);
      if currentSelf.None? || currentSelf.value == INVALID {
        return Err(NoKey);
      }
      var out := aead.seal(currentSelf.value, iv, plain, aad);
      if out.None? {
        return Err(EncryptFailed);
      }
      var (ct, tag) := out.value;
      buf.data := buf.data + (BE64(counter) + iv + tag + BE16(|ct|) + BE16(flags) + ct);
      return Ok(());
    }

    method EncryptInto(counter: U64, sid: SessionId, plain: Bytes, iv: Iv, encoded: bool, out: array<Byte>)
      returns (r: Result<nat, Error>)
      requires Valid() && LengthPreserving(aead)
      modifies out
      ensures Valid() && Meaning() == old(Meaning())
      ensures var frame := SealFrame(aead, version, currentSelf, counter, sid, plain, iv, encoded);
        if |plain| > MAX_PLAINTEXT then r == Err(PayloadTooLarge)
        else if out.Length < WIRE_OVERHEAD + |plain| then r == Err(BufferTooSmall)
        else if frame.Err? then r == Err(frame.error)
        else
          && r == Ok(|frame.value|)
          && out[..|frame.value|] == frame.value
          && out[|frame.value|..] == old(out[|frame.value|..])
    {
      if |plain| > MAX_PLAINTEXT {
        return Err(PayloadTooLarge);
      }
      var frameLen := WIRE_OVERHEAD + |plain|;
      if out.Length < frameLen {
        return Err(BufferTooSmall);
      }
      var flags := FlagsOf(encoded);
      var aad := BuildAad(version, sid, counter, flags);
      if currentSelf.None? || currentSelf.value == INVALID {
        return Err(NoKey);
      }
      var result := aead.seal(currentSelf.value, iv, plain, aad);
      if result.None? {
        return Err(EncryptFailed);
      }
      var (ct, tag) := result.value;
      WriteFrame(out, Frame(counter, iv, tag, flags, ct));
      return Ok(frameLen);
    }

    /** Preview, open and commit, shared by both receive paths; nothing changes unless it succeeds. */
    method Admitted(f: Frame, sid: SessionId) returns (r: Result<Bytes, Error>)
      requires Valid()
      modifies this`packetsReceived, replay, replay.bitmap
      ensures Valid()
      ensures r == if !Admits(old(Meaning()).window, f.counter) then Err(Replayed)
                   else OpenFrame(aead, old(Meaning()).keys, f, BuildAad(version, sid, f.counter, f.flags))
      ensures Meaning() == if r.Ok? then AfterReceive(old(Meaning()), f.counter) else old(Meaning())
    {
      var rejected := replay.WouldReject(f.counter);
      if rejected {
        return Err(Replayed);
      }
      var aad := BuildAad(version, sid, f.counter, f.flags);
      if currentPeer.None? || currentPeer.value == INVALID {
        return Err(NoKey);
      }
      var plain := aead.open(currentPeer.value, f.iv, f.cipherText, aad, f.tag);
      if plain.None? {
        if prevPeer.None? || prevPeer.value == INVALID {
          return Err(AuthFailed);
        }
        plain := aead.open(prevPeer.value, f.iv, f.cipherText, aad, f.tag);
        if plain.None? {
          return Err(AuthFailed);
        }
      }
      var committed := replay.Commit(f.counter);
      if !committed {
        return Err(Replayed);
      }
      packetsReceived := Increment(packetsReceived);
      return Ok(plain.value);
    }

    method TryFromWire(buf: Buffer, sid: SessionId) returns (r: Result<(Bytes, bool), Error>)
      requires Valid()
      modifies this`packetsReceived, replay, replay.bitmap, buf
      ensures Valid()
      ensures match Receive(aead, old(Meaning()), sid, old(buf.data))
              case Err(e) => r == Err(e) && buf.data == old(buf.data) && Meaning() == old(Meaning())
              case Ok(v) =>
                && r == Ok((v.plain, v.encoded))
                && v.frameLen <= |old(buf.data)| && buf.data == old(buf.data)[v.frameLen..]
                && Meaning() == AfterReceive(old(Meaning()), v.counter)
    {
      var parsed := Parse(buf.data);
      if parsed.Err? {
        return Err(parsed.error);
      }
      var f := parsed.value;
      var plain := Admitted(f, sid);
      if plain.Err? {
        return Err(plain.error);
      }
      buf.data := buf.data[WIRE_OVERHEAD + |f.cipherText|..];
      return Ok((plain.value, IsEncoded(f.flags)));
    }

    /** The twin that writes into `out`, given enough room, agrees with `TryFromWire` in every respect. */
    method DecryptInto(sid: SessionId, wire: Bytes, out: array<Byte>) returns (r: Result<(nat, bool), Error>)
      requires Valid() && LengthPreserving(aead)
      modifies this`packetsReceived, replay, replay.bitmap, out
      ensures Valid()
      ensures var received := Receive(aead, old(Meaning()), sid, wire);
        if Parse(wire).Ok? && out.Length < |Parse(wire).value.cipherText|
        then r == Err(BufferTooSmall) && Meaning() == old(Meaning())
        else
          match received
          case Err(e) => r == Err(e) && Meaning() == old(Meaning())
          case Ok(v) =>
            && r == Ok((|v.plain|, v.encoded))
            && |v.plain| <= out.Length && out[..|v.plain|] == v.plain && out[|v.plain|..] == old(out[|v.plain|..])
            && Meaning() == AfterReceive(old(Meaning()), v.counter)
    {
      var parsed := Parse(wire);
      if parsed.Err? {
        return Err(parsed.error);
      }
      var f := parsed.value;
      if out.Length < |f.cipherText| {
        return Err(BufferTooSmall);
      }
      var plain := Admitted(f, sid);
      if plain.Err? {
        return Err(plain.error);
      }
      CopyInto(out, 0, plain.value);
      return Ok((|plain.value|, IsEncoded(f.flags)));
    }
  }

  /** The zero-copy path as its callers use it: reserve a counter, then seal in place. */
  method EncryptFresh(t: Session, out: array<Byte>, sid: SessionId, plain: Bytes, iv: Iv, encoded: bool)
    returns (r: Result<nat, Error>)
    requires t.Valid() && LengthPreserving(t.aead)
    requires |plain| <= MAX_PLAINTEXT && WIRE_OVERHEAD + |plain| <= out.Length
    modifies t`wireCounter, out
    ensures t.Meaning() == old(t.Meaning()).(wireCounter := Increment(old(t.wireCounter)))
    ensures var frame := SealFrame(t.aead, t.version, t.currentSelf, t.wireCounter, sid, plain, iv, encoded);
      if frame.Err? then r == Err(frame.error)
      else r == Ok(|frame.value|) && |frame.value| <= out.Length && out[..|frame.value|] == frame.value
  {
    var counter := t.ReserveCounter();
    r := t.EncryptInto(counter, sid, plain, iv, encoded, out);
  }

  /** The zero-copy path puts the very bytes on the wire that the other does. */
  method EncryptPathsAgree(s: Session, t: Session, buf: Buffer, out: array<Byte>, sid: SessionId, plain: Bytes, iv: Iv,
                           encoded: bool) returns (appended: Result<(), Error>, written: Result<nat, Error>)
    requires s.Valid() && t.Valid() && s != t && s.aead == t.aead && LengthPreserving(s.aead)
    requires s.Meaning() == t.Meaning() && buf.data == [] && out.Length >= WIRE_OVERHEAD + |plain|
    requires |plain| <= MAX_PLAINTEXT
    modifies s, t, buf, out
    ensures appended.Ok? <==> written.Ok?
    ensures appended.Err? ==> written.error == appended.error && buf.data == []
    ensures written.Ok? ==> written.value == |buf.data| <= out.Length && out[..written.value] == buf.data
    ensures s.Meaning() == t.Meaning()
  {
    appended := s.AppendToWire(buf, sid, plain, iv, encoded);
    written := EncryptFresh(t, out, sid, plain, iv, encoded);
  }

  lemma EncodeParts(f: Frame)
    ensures |Encode(f)| == WIRE_OVERHEAD + |f.cipherText|
    ensures forall i :: 0 <= i < |Encode(f)| ==>
              Encode(f)[i] ==
              if i < 8 then BE64(f.counter)[i] else if i < 20 then f.iv[i - 8] else if i < 36 then f.tag[i - 20]
              else if i < 38 then BE16(|f.cipherText|)[i - 36] else if i < 40 then BE16(f.flags)[i - 38]
              else f.cipherText[i - 40]
  {}

  method WriteFrame(out: array<Byte>, f: Frame)
    requires |f.cipherText| <= MAX_PLAINTEXT && WIRE_OVERHEAD + |f.cipherText| <= out.Length
    modifies out
    ensures |Encode(f)| == WIRE_OVERHEAD + |f.cipherText|
    ensures out[..|Encode(f)|] == Encode(f) && out[|Encode(f)|..] == old(out[WIRE_OVERHEAD + |f.cipherText|..])
  {
    CopyInto(out, 40, f.cipherText);
    CopyInto(out, 0, BE64(f.counter));
    CopyInto(out, 8, f.iv);
    CopyInto(out, 20, f.tag);
    CopyInto(out, 36, BE16(|f.cipherText|));
    CopyInto(out, 38, BE16(f.flags));
    EncodeParts(f);
  }

  method CopyInto(out: array<Byte>, at: nat, src: Bytes)
    requires at + |src| <= out.Length
    modifies out
    ensures forall i :: 0 <= i < out.Length ==>
              out[i] == if at <= i < at + |src| then src[i - at] else old(out[i])
  {
    forall i | 0 <= i < |src| {
      out[at + i] := src[i];
    }
  }
}
