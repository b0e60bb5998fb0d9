/** What one ExpressLane session computes, as functions of its state. */
module SessionSpec {
  import opened OnesComplement
  import opened Words
  import opened Wrappers
  import opened Aead
  import opened Frames
  import opened ReplaySpec

  /** The four key slots: current and staged for sending, current and grace for receiving. */
  datatype Keys = Keys(currentSelf: Option<Key>, nextSelf: Option<Key>, currentPeer: Option<Key>, prevPeer: Option<Key>)

  datatype State = State(version: Version, wireCounter: U64, received: U64, window: Window, keys: Keys,
                         hasSelf: bool, hasPeer: bool)

  function Increment(n: U64): U64 {
    (n as nat + 1) % 0x1_0000_0000_0000_0000
  }

  /** The frame sealed under the current sending key for a given counter. */
  function SealFrame(a: Cipher, version: Version, key: Option<Key>, counter: U64, sid: SessionId, plain: Bytes, iv: Iv,
                     encoded: bool): Result<Bytes, Error>
  {
    if |plain| > MAX_PLAINTEXT then Err(PayloadTooLarge)
    else if !Usable(key) then Err(NoKey)
    else
      match a.seal(key.value, iv, plain, BuildAad(version, sid, counter, FlagsOf(encoded)))
      case None => Err(EncryptFailed)
      case Some((ct, tag)) => Ok(Encode(Frame(counter, iv, tag, FlagsOf(encoded), ct)))
  }

  /** Opening tries the current receive key and then the grace key, never the sentinel. */
  function OpenFrame(a: Cipher, keys: Keys, f: Frame, aad: Bytes): Result<Bytes, Error> {
    if !Usable(keys.currentPeer) then Err(NoKey)
    else
      match a.open(keys.currentPeer.value, f.iv, f.cipherText, aad, f.tag)
      case Some(p) => Ok(p)
      case None =>
        if !Usable(keys.prevPeer) then Err(AuthFailed)
        else
          match a.open(keys.prevPeer.value, f.iv, f.cipherText, aad, f.tag)
          case Some(p) => Ok(p)
          case None => Err(AuthFailed)
  }

  datatype Received = Received(plain: Bytes, encoded: bool, frameLen: nat, counter: U64)

  /** One receive with nobody else at work: the commit after a passed preview cannot fail. */
  function Receive(a: Cipher, st: State, sid: SessionId, b: Bytes): Result<Received, Error> {
    match Parse(b)
    case Err(e) => Err(e)
    case Ok(f) =>
      if !Admits(st.window, f.counter) then Err(Replayed)
      else
        match OpenFrame(a, st.keys, f, BuildAad(st.version, sid, f.counter, f.flags))
        case Err(e) => Err(e)
        case Ok(p) => Ok(Received(p, IsEncoded(f.flags), WIRE_OVERHEAD + |f.cipherText|, f.counter))
  }

  function AfterReceive(st: State, counter: U64): State {
    st.(window := Admit(st.window, counter), received := Increment(st.received))
  }

  // ---- round trip ----

  /** `k` is a receive key the session will try. */
  predicate Holds(keys: Keys, k: Key) {
    && k != INVALID
    && Usable(keys.currentPeer)
    && (keys.currentPeer == Some(k) || keys.prevPeer == Some(k))
  }

  lemma OpensUnderHeldKey(a: Cipher, honest: iset<Sealed>, keys: Keys, e: Sealed, f: Frame)
    requires Ideal(a, honest) && e in honest && Holds(keys, e.key)
    requires f.iv == e.iv && SealOf(a, e) == Some((f.cipherText, f.tag))
    ensures OpenFrame(a, keys, f, e.aad) == Ok(e.plain)
  {}

  /**
   What one side seals the other opens: any plaintext up to 65535 bytes, with whatever follows the
   frame left alone, as long as the receiver holds the key in either slot and has not seen the counter.
   */
  lemma SealedFrameIsReceived(a: Cipher, honest: iset<Sealed>, tx: State, rx: State, counter: U64, sid: SessionId,
                              plain: Bytes, iv: Iv, encoded: bool, rest: Bytes)
    requires Ideal(a, honest) && |plain| <= MAX_PLAINTEXT && Usable(tx.keys.currentSelf)
    requires Sealed(tx.keys.currentSelf.value, iv, plain,
        BuildAad(tx.version, sid, counter, FlagsOf(encoded))) in honest
    requires Holds(rx.keys, tx.keys.currentSelf.value) && (tx.version >= 2 <==> rx.version >= 2)
    requires Admits(rx.window, counter)
    ensures var r := SealFrame(a, tx.version, tx.keys.currentSelf, counter, sid, plain, iv, encoded);
      && r.Ok?
      && Receive(a, rx, sid, r.value + rest) == Ok(Received(plain, encoded, |r.value|, counter))
  {
    var e := Sealed(tx.keys.currentSelf.value, iv, plain, BuildAad(tx.version, sid, counter, FlagsOf(encoded)));
    assert OpensToItself(a, e);
    var (ct, tag) := SealOf(a, e).value;
    var f := Frame(counter, iv, tag, FlagsOf(encoded), ct);
    ParseEncoded(f, rest);
    OpensUnderHeldKey(a, honest, rx.keys, e, f);
  }

  /** What a sealed frame looks like on the wire, byte for byte, the flag in the top bit of its word. */
  lemma SealedFrameLayout(a: Cipher, version: Version, key: Option<Key>, counter: U64, sid: SessionId, plain: Bytes,
                          iv: Iv, encoded: bool)
    requires LengthPreserving(a)
    ensures var r := SealFrame(a, version, key, counter, sid, plain, iv, encoded);
      r.Ok? ==>
        var b := r.value;
        && Usable(key) && |b| == 40 + |plain| && U64At(b, 0) == counter && b[8..20] == iv && U16At(b, 36) == |plain|
        && b[38] == (if encoded then 0x80 else 0) && b[39] == 0
        && a.seal(key.value, iv, plain, BuildAad(version, sid, counter, U16At(b, 38))) == Some((b[40..], b[20..36]))
  {
    var r := SealFrame(a, version, key, counter, sid, plain, iv, encoded);
    if r.Ok? {
      var (ct, tag) := a.seal(key.value, iv, plain, BuildAad(version, sid, counter, FlagsOf(encoded))).value;
      WireLayout(Frame(counter, iv, tag, FlagsOf(encoded), ct), []);
      assert r.value + [] == r.value;
    }
  }

  // ---- authenticity ----

  /** Sealing fails exactly for a plaintext too long for its length field, without a real key, or in the AEAD. */
  lemma SealRefusedIff(a: Cipher, version: Version, key: Option<Key>, counter: U64, sid: SessionId, plain: Bytes,
                       iv: Iv, encoded: bool)
    ensures var r := SealFrame(a, version, key, counter, sid, plain, iv, encoded);
      && (r == Err(PayloadTooLarge) <==> |plain| >= 0x1_0000)
      && (r == Err(NoKey) <==> |plain| < 0x1_0000 && !Usable(key))
      && (r.Ok? || r.error in {PayloadTooLarge, NoKey, EncryptFailed})
  {}

  /** The frame opens under key `k` for this session. */
  predicate Opens(a: Cipher, st: State, sid: SessionId, f: Frame, k: Key) {
    a.open(k, f.iv, f.cipherText, BuildAad(st.version, sid, f.counter, f.flags), f.tag).Some?
  }

  /**
   A frame that parses is received exactly when its counter is new and some held key opens it; otherwise the error
   says which of these failed, a counter already seen before a missing key before a key that does not open it.
   */
  lemma ReceivedIff(a: Cipher, st: State, sid: SessionId, b: Bytes, f: Frame)
    requires Parse(b) == Ok(f)
    ensures var r, opens := Receive(a, st, sid, b), exists k :: Holds(st.keys, k) && Opens(a, st, sid, f, k);
      && (r.Ok? <==> Admits(st.window, f.counter) && opens)
      && (r.Ok? ==> (r.value.encoded <==> b[38] >= 0x80) && r.value.frameLen == 40 + U16At(b, 36) as nat)
      && (r == Err(Replayed) <==> !Admits(st.window, f.counter))
      && (r == Err(NoKey) <==> Admits(st.window, f.counter) && !Usable(st.keys.currentPeer))
      && (r == Err(AuthFailed) <==> Admits(st.window, f.counter) && Usable(st.keys.currentPeer) && !opens)
  {
    var keys := st.keys;
    if Usable(keys.currentPeer) && Opens(a, st, sid, f, keys.currentPeer.value) {
      assert Holds(keys, keys.currentPeer.value);
    } else if Usable(keys.currentPeer) && Usable(keys.prevPeer) && Opens(a, st, sid, f, keys.prevPeer.value) {
      assert Holds(keys, keys.prevPeer.value);
    }
  }

  /**
   Whatever is accepted was sealed by an honest sender under a held, real key, for this very session
   id and counter, and from version 2 with these very flags.
   */
  lemma AcceptedWasSealed(a: Cipher, honest: iset<Sealed>, st: State, sid: SessionId, b: Bytes) returns (e: Sealed)
    requires Ideal(a, honest) && Receive(a, st, sid, b).Ok?
    ensures e in honest && Holds(st.keys, e.key)
    ensures e.plain == Receive(a, st, sid, b).value.plain
    ensures Parse(b).Ok? && e.aad == BuildAad(st.version, sid, Parse(b).value.counter, Parse(b).value.flags)
    ensures SealOf(a, e) == Some((Parse(b).value.cipherText, Parse(b).value.tag)) && e.iv == Parse(b).value.iv
  {
    var f := Parse(b).value;
    var aad := BuildAad(st.version, sid, f.counter, f.flags);
    var first := a.open(st.keys.currentPeer.value, f.iv, f.cipherText, aad, f.tag);
    if first.Some? {
      e := Sealed(st.keys.currentPeer.value, f.iv, first.value, aad);
    } else {
      var second := a.open(st.keys.prevPeer.value, f.iv, f.cipherText, aad, f.tag);
      e := Sealed(st.keys.prevPeer.value, f.iv, second.value, aad);
    }
  }

  /**
   A frame whose counter, session id or (from version 2) flags were altered in flight is rejected:
   two accepted frames with the same sealed part agree on all of them.
   */
  lemma TamperedHeaderRejected(a: Cipher, honest: iset<Sealed>, st: State, sid: SessionId, b: Bytes, sid': SessionId,
                               b': Bytes)
    requires Ideal(a, honest) && Receive(a, st, sid, b).Ok? && Parse(b').Ok?
    requires var f, f' := Parse(b).value, Parse(b').value;
      f'.iv == f.iv && f'.tag == f.tag && f'.cipherText == f.cipherText
    requires var f, f' := Parse(b).value, Parse(b').value;
      sid' != sid || f'.counter != f.counter || (st.version >= 2 && f'.flags != f.flags)
    ensures Receive(a, st, sid', b').Err?
  {
    var f, f' := Parse(b).value, Parse(b').value;
    if Receive(a, st, sid', b').Ok? {
      var e := AcceptedWasSealed(a, honest, st, sid, b);
      var e' := AcceptedWasSealed(a, honest, st, sid', b');
      assert e == e';
      AadBinds(st.version, sid, f.counter, f.flags, st.version, sid', f'.counter, f'.flags);
    }
  }

  /** Before version 2 the flags are not authenticated: flipping them flips what the receiver reports. */
  lemma FlagsUnboundBeforeVersion2(a: Cipher, st: State, sid: SessionId, f: Frame, rest: Bytes, flags: U16)
    requires st.version < 2 && |f.cipherText| <= MAX_PLAINTEXT
    requires Receive(a, st, sid, Encode(f) + rest).Ok?
    ensures Receive(a, st, sid, Encode(f.(flags := flags)) + rest)
         == Ok(Receive(a, st, sid, Encode(f) + rest).value.(encoded := IsEncoded(flags)))
  {
    ParseEncoded(f, rest);
    ParseEncoded(f.(flags := flags), rest);
  }
}
