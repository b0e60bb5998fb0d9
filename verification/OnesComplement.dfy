/** Bytes, big-endian fields and the Internet checksum (section 2 of RFC 1071). */
module OnesComplement {

  type Byte = x: nat | x < 256
  type U16 = x: nat | x < 0x1_0000
  type Bytes = seq<Byte>

  const ONES: nat := 0xFFFF

  function U16At(bs: Bytes, i: nat): U16
    requires i + 2 <= |bs|
  {
    256 * (bs[i] as nat) + bs[i + 1] as nat
  }

  function PutU16(bs: Bytes, i: nat, v: nat): Bytes
    requires i + 2 <= |bs|
  {
    bs[i := v / 256 % 256][i + 1 := v % 256]
  }

  function BE16(v: nat): Bytes {
    [v / 256 % 256, v % 256]
  }

  function BE32(v: nat): (r: Bytes)
    ensures |r| == 4
  {
    BE16(v / 0x1_0000) + BE16(v % 0x1_0000)
  }

  function U32At(b: Bytes, i: nat): (v: nat)
    requires i + 4 <= |b|
    ensures v < 0x1_0000_0000
  {
    U16At(b, i) as nat * 0x1_0000 + U16At(b, i + 2) as nat
  }

  /** Byte strings end to end. */
  function Concat(parts: seq<Bytes>): Bytes {
    if parts == [] then [] else parts[0] + Concat(parts[1..])
  }

  lemma {:induction false} ConcatAppend(a: seq<Bytes>, b: seq<Bytes>)
    ensures Concat(a + b) == Concat(a) + Concat(b)
  {
    if a == [] {
      assert a + b == b;
    } else {
      calc {
        Concat(a + b);
        { assert (a + b)[0] == a[0] && (a + b)[1..] == a[1..] + b; }
        a[0] + Concat(a[1..] + b);
        { ConcatAppend(a[1..], b); }
        a[0] + (Concat(a[1..]) + Concat(b));
        (a[0] + Concat(a[1..])) + Concat(b);
      }
    }
  }

  /** The sum of the big-endian 16-bit words, an odd last byte padded with zero. */
  function WordSum(bs: Bytes): nat {
    if |bs| == 0 then 0
    else if |bs| == 1 then 256 * (bs[0] as nat)
    else 256 * (bs[0] as nat) + (bs[1] as nat) + WordSum(bs[2..])
  }

  /** End-around carry until the sum fits sixteen bits. */
  function Fold(n: nat): U16 {
    if n < 0x1_0000 then n else Fold(n % 0x1_0000 + n / 0x1_0000)
  }

  function Complement(w: U16): U16 {
    ONES - w
  }

  function InternetChecksum(bs: Bytes): U16 {
    Complement(Fold(WordSum(bs)))
  }

  /** A receiver accepts when everything covered, checksum included, folds to all ones. */
  predicate Verifies(bs: Bytes) {
    Fold(WordSum(bs)) == ONES
  }

  method SetU16(buf: array<Byte>, i: nat, v: U16)
    requires i + 2 <= buf.Length
    modifies buf
    ensures buf[..] == PutU16(old(buf[..]), i, v)
  {
    buf[i] := v / 256 % 256;
    buf[i + 1] := v % 256;
  }

  // ---- the sum is linear in the bytes ----

  lemma {:induction false} WordSumAppend(a: Bytes, b: Bytes)
    requires |a| % 2 == 0
    ensures WordSum(a + b) == WordSum(a) + WordSum(b)
  {
    if a == [] {
      assert a + b == b;
    } else {
      WordSumAppend(a[2..], b);
      assert (a + b)[2..] == a[2..] + b;
    }
  }

  /** A byte weighs 256 at an even offset and 1 at an odd one. */
  lemma {:induction false} WordSumSet(bs: Bytes, i: nat, x: Byte)
    requires i < |bs|
    ensures i % 2 == 0 ==> WordSum(bs[i := x]) == WordSum(bs) + 256 * (x as nat) - 256 * (bs[i] as nat)
    ensures i % 2 == 1 ==> WordSum(bs[i := x]) == WordSum(bs) + x as nat - bs[i] as nat
  {
    if i >= 2 {
      WordSumSet(bs[2..], i - 2, x);
      assert bs[i := x][2..] == bs[2..][i - 2 := x];
    } else {
      assert |bs| > 1 ==> bs[i := x][2..] == bs[2..];
    }
  }

  lemma PutU16Frame(bs: Bytes, i: nat, v: U16)
    requires i + 2 <= |bs|
    ensures |PutU16(bs, i, v)| == |bs| && U16At(PutU16(bs, i, v), i) == v
    ensures forall k :: 0 <= k < |bs| && k != i && k != i + 1 ==> PutU16(bs, i, v)[k] == bs[k]
  {}

  lemma SplitU16(v: U16)
    ensures v == 256 * (v / 256 % 256) + v % 256
  {}

  lemma TwoBytesSum(bs: Bytes, i: nat, high: Byte, low: Byte)
    requires i + 2 <= |bs| && i % 2 == 0
    ensures WordSum(bs[i := high][i + 1 := low]) == WordSum(bs) - U16At(bs, i) + 256 * (high as nat) + low as nat
  {
    WordSumSet(bs, i, high);
    WordSumSet(bs[i := high], i + 1, low);
  }

  lemma PutU16Sum(bs: Bytes, i: nat, v: U16)
    requires i + 2 <= |bs| && i % 2 == 0
    ensures WordSum(PutU16(bs, i, v)) == WordSum(bs) - U16At(bs, i) + v
  {
    TwoBytesSum(bs, i, v / 256 % 256, v % 256);
    SplitU16(v);
  }

  lemma SumOfBE16(v: U16)
    ensures WordSum(BE16(v)) == v
  {
    SplitU16(v);
    assert BE16(v)[2..] == [];
  }

  // ---- folding is arithmetic modulo 65535 with two zeros ----

  lemma {:induction false} FoldCongruent(n: nat)
    ensures Fold(n) % ONES == n % ONES
    ensures Fold(n) == 0 <==> n == 0
  {
    if n >= 0x1_0000 {
      FoldCongruent(n % 0x1_0000 + n / 0x1_0000);
      var q := n / 0x1_0000;
      assert n == (n % 0x1_0000 + q) + q * ONES;
      ModAddMultiple(n % 0x1_0000 + q, q);
    }
  }

  lemma ModAddMultiple(a: int, q: int)
    ensures (a + q * ONES) % ONES == a % ONES
  {}

  lemma CongruentDifference(x: int, y: int)
    requires x % ONES == y % ONES
    ensures x - y == (x - y) / ONES * ONES
  {}

  lemma VerifiesIff(bs: Bytes)
    ensures Verifies(bs) <==> WordSum(bs) > 0 && WordSum(bs) % ONES == 0
  {
    FoldCongruent(WordSum(bs));
  }

  lemma FilledSum(s: nat, c: nat)
    requires c == ONES - Fold(s) || (c == ONES && Fold(s) == ONES)
    ensures s + c > 0 && (s + c) % ONES == 0
  {}

  /**
   Filling a zeroed field at an even offset with the checksum makes the whole verify, and so
   does the other representation of zero.
   */
  lemma FilledVerifies(bs: Bytes, at: nat, c: U16)
    requires at % 2 == 0 && at + 2 <= |bs| && U16At(bs, at) == 0
    requires c == InternetChecksum(bs) || (c == ONES && InternetChecksum(bs) == 0)
    ensures Verifies(PutU16(bs, at, c))
  {
    PutU16Frame(bs, at, c);
    PutU16Sum(bs, at, c);
    FilledSum(WordSum(bs), c);
    VerifiesIff(PutU16(bs, at, c));
  }
}

module Buffers {
  import opened OnesComplement

  /** A growable byte buffer owned by the caller. */
  class Buffer {
    var data: Bytes

    constructor (initial: Bytes)
      ensures data == initial
    {
      data := initial;
    }
  }
}
