/** The AEAD a session is given, and what is assumed of an ideal one. */
module Aead {
  import opened OnesComplement
  import opened Wrappers

  function Zeros(n: nat): (r: Bytes)
    ensures |r| == n && forall i :: 0 <= i < n ==> r[i] == 0
  {
    if n == 0 then [] else Zeros(n - 1) + [0]
  }

  type Key = k: Bytes | |k| == 32 witness Zeros(32)
  type Iv = v: Bytes | |v| == 12 witness Zeros(12)
  type Tag = t: Bytes | |t| == 16 witness Zeros(16)

  /** The all-zero sentinel, never usable as a key. */
  const INVALID: Key := Zeros(32)

  predicate Usable(k: Option<Key>) {
    k.Some? && k.value != INVALID
  }

  /** `accepts` is whether an instance can be built for a key; sealing and opening may fail. */
  datatype Cipher = Cipher(
    accepts: Key -> bool,
    seal: (Key, Iv, Bytes, Bytes) -> Option<(Bytes, Tag)>,
    open: (Key, Iv, Bytes, Bytes, Tag) -> Option<Bytes>)

  /** One honest call of `seal`. */
  datatype Sealed = Sealed(key: Key, iv: Iv, plain: Bytes, aad: Bytes)

  function SealOf(a: Cipher, e: Sealed): Option<(Bytes, Tag)> {
    a.seal(e.key, e.iv, e.plain, e.aad)
  }

  ghost predicate LengthPreserving(a: Cipher) {
    && (forall k, iv, p, aad :: a.seal(k, iv, p, aad).Some? ==> |a.seal(k, iv, p, aad).value.0| == |p|)
    && (forall k, iv, ct, aad, tag :: a.open(k, iv, ct, aad, tag).Some? ==> |a.open(k, iv, ct, aad, tag).value| == |ct|)
  }

  predicate OpensToItself(a: Cipher, e: Sealed) {
    && SealOf(a, e).Some?
    && a.open(e.key, e.iv, SealOf(a, e).value.0, e.aad, SealOf(a, e).value.1) == Some(e.plain)
  }

  /**
   An ideal AEAD for a given set of honest seals: lengths are preserved, what was sealed opens to
   what it was, only what was sealed opens at all, and no two honest seals collide.
   */
  ghost predicate Ideal(a: Cipher, honest: iset<Sealed>) {
    && LengthPreserving(a)
    && (forall e :: e in honest ==> OpensToItself(a, e))
    && (forall k, iv, ct, aad, tag :: a.open(k, iv, ct, aad, tag).Some? ==>
          var e := Sealed(k, iv, a.open(k, iv, ct, aad, tag).value, aad);
          e in honest && SealOf(a, e) == Some((ct, tag)))
    && (forall e, f :: e in honest && f in honest && SealOf(a, e) == SealOf(a, f) ==> e == f)
  }

  // ---- an instance, so that nothing proved from `Ideal` is vacuous ----

  function NumberedTag(i: Byte): Tag {
    [i] + Zeros(15)
  }

  function IndexOf(log: seq<Sealed>, e: Sealed): (i: nat)
    requires e in log
    ensures i < |log| && log[i] == e
  {
    if log[0] == e then 0 else 1 + IndexOf(log[1..], e)
  }

  /** Opens exactly the entries of a log, telling them apart by a number in the tag. */
  function LogCipher(log: seq<Sealed>): Cipher
    requires |log| <= 256
  {
    Cipher(
      k => true,
      (k: Key, iv: Iv, p: Bytes, aad: Bytes) =>
        if Sealed(k, iv, p, aad) in log then Some((p, NumberedTag(IndexOf(log, Sealed(k, iv, p, aad))))) else None,
      (k: Key, iv: Iv, ct: Bytes, aad: Bytes, tag: Tag) =>
        if Sealed(k, iv, ct, aad) in log && tag == NumberedTag(IndexOf(log, Sealed(k, iv, ct, aad))) then Some(ct)
            else None)
  }

  /** Any log of up to 256 seals has an ideal AEAD, over any keys, nonces and data. */
  lemma LogCipherIsIdeal(log: seq<Sealed>)
    requires |log| <= 256
    ensures Ideal(LogCipher(log), iset e | e in log)
  {
    var a := LogCipher(log);
    forall e, f | e in log && f in log && SealOf(a, e) == SealOf(a, f) ensures e == f {
      assert NumberedTag(IndexOf(log, e))[0] == NumberedTag(IndexOf(log, f))[0];
    }
  }
}

/** The ExpressLane wire format and its associated data. */
module Frames {
  import opened OnesComplement
  import opened Words
  import opened Wrappers
  import opened Aead

  datatype Error = NewCipherFailed | NoKey | EncryptFailed | AuthFailed | PayloadTooLarge | Replayed
                 | InsufficientData | BufferTooSmall

  type SessionId = s: Bytes | |s| == 8 witness Zeros(8)

  const WIRE_OVERHEAD: nat := 40
  const MAX_PLAINTEXT: nat := 0xFFFF

  /** Wire version as a number: 0 unknown, 1 and 2. */
  type Version = v: nat | v <= 2

  function FlagsOf(encoded: bool): U16 {
    if encoded then 0x8000 else 0
  }

  predicate IsEncoded(flags: U16) {
    flags >= 0x8000
  }

  lemma BE32RoundTrip(v: nat, b: Bytes, i: nat)
    requires v < 0x1_0000_0000 && i + 4 <= |b| && b[i..i + 4] == BE32(v)
    ensures U32At(b, i) == v
  {
    forall k | 0 <= k < 4 ensures b[i + k] == BE32(v)[k] {
      assert b[i..i + 4][k] == b[i + k];
    }
    assert v / 0x1_0000 < 0x1_0000;
    SplitU16(v / 0x1_0000);
    SplitU16(v % 0x1_0000);
  }

  function BE64(v: U64): (r: Bytes)
    ensures |r| == 8
  {
    BE32(v / 0x1_0000_0000) + BE32(v % 0x1_0000_0000)
  }

  function U64At(b: Bytes, i: nat): (v: U64)
    requires i + 8 <= |b|
  {
    U32At(b, i) * 0x1_0000_0000 + U32At(b, i + 4)
  }

  /** The most significant byte comes first. */
  lemma U64AtIsBigEndian(b: Bytes, i: nat)
    requires i + 8 <= |b|
    ensures U64At(b, i) as nat
         == b[i] as nat * 0x100_0000_0000_0000 + b[i + 1] as nat * 0x1_0000_0000_0000
            + b[i + 2] as nat * 0x100_0000_0000 + b[i + 3] as nat * 0x1_0000_0000 + b[i + 4] as nat * 0x100_0000
            + b[i + 5] as nat * 0x1_0000 + b[i + 6] as nat * 0x100 + b[i + 7] as nat
  {}

  lemma BE64RoundTrip(v: U64, b: Bytes, i: nat)
    requires i + 8 <= |b| && b[i..i + 8] == BE64(v)
    ensures U64At(b, i) == v
  {
    assert b[i..i + 4] == b[i..i + 8][..4] && b[i + 4..i + 8] == b[i..i + 8][4..];
    BE32RoundTrip(v / 0x1_0000_0000, b, i);
    BE32RoundTrip(v % 0x1_0000_0000, b, i + 4);
  }

  /** The associated data: the flags are bound from version 2 on. */
  function BuildAad(version: Version, sid: SessionId, counter: U64, flags: U16): Bytes {
    sid + BE64(counter) + if version >= 2 then BE16(flags) else []
  }

  /** Where everything is: session id, counter, and from version 2 the flags, in sixteen or eighteen bytes. */
  lemma AadLayout(v: Version, sid: SessionId, c: U64, f: U16)
    ensures var aad := BuildAad(v, sid, c, f);
      && |aad| == (if v >= 2 then 18 else 16) && aad[..8] == sid && U64At(aad, 8) == c
      && (v >= 2 ==> U16At(aad, 16) == f)
  {
    var aad := BuildAad(v, sid, c, f);
    assert aad[8..16] == BE64(c);
    BE64RoundTrip(c, aad, 8);
    if v >= 2 {
      assert aad[16..18] == BE16(f);
      FieldAt(aad, 16, f);
    }
  }

  lemma BE64Injective(x: U64, y: U64)
    requires BE64(x) == BE64(y)
    ensures x == y
  {
    assert BE64(x)[0..8] == BE64(x);
    BE64RoundTrip(x, BE64(x), 0);
    BE64RoundTrip(y, BE64(x), 0);
  }

  /** Equal associated data means the same session, counter and format, and from version 2 the same flags. */
  lemma AadBinds(v: Version, sid: SessionId, c: U64, f: U16, v': Version, sid': SessionId, c': U64, f': U16)
    requires BuildAad(v, sid, c, f) == BuildAad(v', sid', c', f')
    ensures sid == sid' && c == c' && (v >= 2 <==> v' >= 2) && (v >= 2 ==> f == f')
  {
    var x, y := BuildAad(v, sid, c, f), BuildAad(v', sid', c', f');
    assert x[..8] == sid && y[..8] == sid';
    assert x[8..16] == BE64(c) && y[8..16] == BE64(c');
    BE64Injective(c, c');
    if v >= 2 {
      assert x[16..] == BE16(f) && y[16..] == BE16(f');
      SplitU16(f);
      SplitU16(f');
    }
  }

  datatype Frame = Frame(counter: U64, iv: Iv, tag: Tag, flags: U16, cipherText: Bytes)

  function Encode(f: Frame): Bytes {
    BE64(f.counter) + f.iv + f.tag + BE16(|f.cipherText|) + BE16(f.flags) + f.cipherText
  }

  function Parse(b: Bytes): (r: Result<Frame, Error>)
    ensures r.Ok? ==> WIRE_OVERHEAD + |r.value.cipherText| <= |b|
  {
    if |b| < WIRE_OVERHEAD then Err(InsufficientData)
    else
      var dataLen := U16At(b, 36) as nat;
      if |b| < WIRE_OVERHEAD + dataLen then Err(InsufficientData)
      else Ok(Frame(U64At(b, 0), b[8..20], b[20..36], U16At(b, 38), b[40..40 + dataLen]))
  }

  /** Parsing undoes encoding, whatever follows the frame. */
  lemma ParseEncoded(f: Frame, rest: Bytes)
    requires |f.cipherText| <= MAX_PLAINTEXT
    ensures Parse(Encode(f) + rest) == Ok(f)
    ensures |Encode(f)| == WIRE_OVERHEAD + |f.cipherText|
  {
    WireLayout(f, rest);
  }

  /** Where everything is in a frame on the wire: counter, nonce, tag, length, flags and ciphertext. */
  lemma WireLayout(f: Frame, rest: Bytes)
    requires |f.cipherText| <= MAX_PLAINTEXT
    ensures var b := Encode(f) + rest;
      && |b| == 40 + |f.cipherText| + |rest| && U64At(b, 0) == f.counter && b[8..20] == f.iv && b[20..36] == f.tag
      && U16At(b, 36) == |f.cipherText| && U16At(b, 38) == f.flags && b[40..40 + |f.cipherText|] == f.cipherText
  {
    var b := Encode(f) + rest;
    assert b[0..8] == BE64(f.counter);
    BE64RoundTrip(f.counter, b, 0);
    FieldAt(b, 36, |f.cipherText|);
    FieldAt(b, 38, f.flags);
  }

  lemma FieldBack(b: Bytes, i: nat)
    requires i + 2 <= |b|
    ensures BE16(U16At(b, i)) == b[i..i + 2]
  {
    SplitU16(U16At(b, i));
  }

  lemma WordBack(b: Bytes, i: nat)
    requires i + 4 <= |b|
    ensures BE32(U32At(b, i)) == b[i..i + 4]
  {
    var v := U32At(b, i);
    assert v / 0x1_0000 == U16At(b, i) && v % 0x1_0000 == U16At(b, i + 2);
    FieldBack(b, i);
    FieldBack(b, i + 2);
    assert b[i..i + 4] == b[i..i + 2] + b[i + 2..i + 4];
  }

  lemma HalvesBack(hi: nat, lo: nat, v: U64)
    requires hi < 0x1_0000_0000 && lo < 0x1_0000_0000 && v as nat == hi * 0x1_0000_0000 + lo
    ensures BE64(v) == BE32(hi) + BE32(lo)
  {}

  lemma CounterBack(b: Bytes)
    requires 8 <= |b|
    ensures BE64(U64At(b, 0)) == b[0..8]
  {
    HalvesBack(U32At(b, 0), U32At(b, 4), U64At(b, 0));
    WordBack(b, 0);
    WordBack(b, 4);
    assert b[0..8] == b[0..4] + b[4..8];
  }

  lemma EncodesParsed(b: Bytes, f: Frame)
    requires Parse(b) == Ok(f)
    ensures |f.cipherText| <= MAX_PLAINTEXT && Encode(f) == b[..40 + |f.cipherText|]
  {
    CounterBack(b);
    FieldBack(b, 36);
    FieldBack(b, 38);
    SixPieces(b, 40 + |f.cipherText|);
  }

  lemma SixPieces(b: Bytes, n: nat)
    requires 40 <= n <= |b|
    ensures b[0..8] + b[8..20] + b[20..36] + b[36..38] + b[38..40] + b[40..n] == b[..n]
  {}

  /** A buffer parses as a frame exactly when it begins with the encoding of that frame, and in no other way. */
  lemma ParsesIff(b: Bytes, f: Frame)
    ensures Parse(b) == Ok(f) <==> |f.cipherText| <= MAX_PLAINTEXT && Encode(f) <= b
    ensures Parse(b).Ok? || Parse(b) == Err(InsufficientData)
  {
    if Parse(b) == Ok(f) {
      EncodesParsed(b, f);
    }
    if |f.cipherText| <= MAX_PLAINTEXT && Encode(f) <= b {
      ParseEncoded(f, b[|Encode(f)|..]);
      assert Encode(f) + b[|Encode(f)|..] == b;
    }
  }

  lemma FieldAt(b: Bytes, i: nat, v: U16)
    requires i + 2 <= |b| && b[i..i + 2] == BE16(v)
    ensures U16At(b, i) == v
  {
    assert b[i] == b[i..i + 2][0] && b[i + 1] == b[i..i + 2][1];
    SplitU16(v);
  }
}
