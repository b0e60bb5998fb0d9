/** The TCP MSS clamp: an option walk and an incremental checksum fix, both in place. */
module ClampMss {
  import opened OnesComplement
  import opened IncrementalChecksum
  import opened Ipv4Packets
  import opened AddressRewrite
  import opened Wrappers

  const MSS_KIND: Byte := 2

  /** `Panics` is the out-of-range index on an MSS option whose length byte leaves it no value. */
  datatype Outcome = Unchanged | Clamped(existing: U16) | Panics

  /** Bytes one option takes: one for end-of-list and no-op, at least two for any other. */
  function OptionSize(b: Bytes, pos: nat): (n: nat)
    requires pos + 1 < |b|
    ensures n >= 1
  {
    if b[pos] <= 1 then 1 else if b[pos + 1] < 2 then 2 else b[pos + 1]
  }

  /** Where the walk over the options in `[pos, end)` stops on an MSS option, if it does. */
  function FindMss(b: Bytes, pos: nat, end: nat): (r: Option<nat>)
    requires pos <= end <= |b|
    ensures r.Some? ==> pos <= r.value && r.value + 4 <= end && b[r.value] == MSS_KIND
    decreases end - pos
  {
    if end - pos < 4 then None
    else if b[pos] == MSS_KIND then Some(pos)
    else if pos + OptionSize(b, pos) > end then None
    else FindMss(b, pos + OptionSize(b, pos), end)
  }

  /** A SYN the clamp looks into. */
  predicate IsSyn(b: Bytes) {
    && IsIpv4(b)
    && b[9] == TCP
    && PayloadLen(b) >= 20
    && b[PayloadStart(b) + 13] / 2 % 2 == 1
  }

  function OptionsEnd(b: Bytes): (e: nat)
    requires IsSyn(b)
    ensures PayloadStart(b) + 20 <= e <= PayloadEnd(b) <= |b|
  {
    var doff := b[PayloadStart(b) + 12] / 16;
    var e := PayloadStart(b) + if doff > 5 then doff * 4 else 20;
    if e < PayloadEnd(b) then e else PayloadEnd(b)
  }

  function MssAt(b: Bytes): Option<nat> {
    if IsSyn(b) then FindMss(b, PayloadStart(b) + 20, OptionsEnd(b)) else None
  }

  function ClampOutcome(b: Bytes, mss: U16): Outcome {
    match MssAt(b)
    case None => Unchanged
    case Some(pos) =>
      if b[pos + 1] < 4 then Panics
      else if U16At(b, pos + 2) <= mss then Unchanged
      else Clamped(U16At(b, pos + 2))
  }

  function ChecksumAt(b: Bytes): (at: nat)
    requires IsSyn(b)
    ensures at + 4 <= PayloadStart(b) + 20 <= |b|
  {
    PayloadStart(b) + 16
  }

  function ClampBytes(b: Bytes, mss: U16): Bytes {
    if !ClampOutcome(b, mss).Clamped? then b
    else
      var pos := MssAt(b).value;
      PutU16(PutU16(b, pos + 2, mss), ChecksumAt(b),
             Update(U16At(b, ChecksumAt(b)), [(U16At(b, pos + 2), mss)]))
  }

  /** The loop body's MSS branch. */
  method ClampAt(buf: array<Byte>, tcp: nat, pos: nat, mss: U16) returns (r: Outcome)
    requires tcp + 20 <= pos && pos + 4 <= buf.Length
    modifies buf
    ensures var b := old(buf[..]);
      && r == (if b[pos + 1] < 4 then Panics else if U16At(b, pos + 2) <= mss then Unchanged
               else Clamped(U16At(b, pos + 2)))
      && buf[..] == if !r.Clamped? then b
                    else PutU16(PutU16(b, pos + 2, mss), tcp + 16,
                        Update(U16At(b, tcp + 16), [(U16At(b, pos + 2), mss)]))
  {
    if buf[pos + 1] < 4 {
      return Panics;
    }
    var existing := U16At(buf[..], pos + 2);
    if existing <= mss {
      return Unchanged;
    }
    SetU16(buf, pos + 2, mss);
    SetU16(buf, tcp + 16, Update(U16At(buf[..], tcp + 16), [(existing, mss)]));
    return Clamped(existing);
  }

  method TcpClampMss(buf: array<Byte>, mss: U16) returns (r: Outcome)
    modifies buf
    ensures r == ClampOutcome(old(buf[..]), mss)
    ensures buf[..] == ClampBytes(old(buf[..]), mss)
  {
    ghost var b := buf[..];
    if buf.Length < 20 || buf[9] != TCP || PayloadLen(buf[..]) < 20 {
      return Unchanged;
    }
    var tcp := PayloadStart(buf[..]);
    if buf[tcp + 13] / 2 % 2 == 0 {
      return Unchanged;
    }
    var pos, end := tcp + 20, OptionsEnd(buf[..]);
    while end - pos >= 4
      invariant pos <= end && buf[..] == b
      invariant MssAt(b) == FindMss(b, pos, end)
    {
      if buf[pos] == MSS_KIND {
        r := ClampAt(buf, tcp, pos, mss);
        return;
      }
      var size := OptionSize(buf[..], pos);
      pos := if size <= end - pos then pos + size else end;
    }
    return Unchanged;
  }

  // ---- what the walk finds ----

  datatype TcpOption = Nop | Kind(kind: Byte, data: Bytes)

  predicate IsMss(o: TcpOption) {
    o.Kind? && o.kind == MSS_KIND
  }

  /** An option as section 3.1 of RFC 793 lays it out; MSS carries a sixteen-bit value. */
  predicate WellFormed(o: TcpOption) {
    o.Kind? ==> o.kind >= 2 && |o.data| <= 253 && (o.kind == MSS_KIND ==> |o.data| == 2)
  }

  function Encode(o: TcpOption): Bytes
    requires WellFormed(o)
  {
    if o.Nop? then [1] else [o.kind, |o.data| + 2] + o.data
  }

  /** Encoded options followed by padding. */
  function EncodeAll(os: seq<TcpOption>, pad: Bytes): Bytes
    requires forall i :: 0 <= i < |os| ==> WellFormed(os[i])
  {
    if os == [] then pad else Encode(os[0]) + EncodeAll(os[1..], pad)
  }

  /** Offset of the first MSS option among encoded options. */
  function FirstMss(os: seq<TcpOption>): Option<nat>
    requires forall i :: 0 <= i < |os| ==> WellFormed(os[i])
  {
    if os == [] then None
    else if IsMss(os[0]) then Some(0)
    else After(|Encode(os[0])|, FirstMss(os[1..]))
  }

  function After(n: nat, o: Option<nat>): Option<nat> {
    if o.None? then None else Some(n + o.value)
  }

  lemma {:induction false} FindMssInPadding(b: Bytes, pos: nat, end: nat)
    requires pos <= end <= |b| && forall i :: pos <= i < end ==> b[i] == 0
    ensures FindMss(b, pos, end) == None
    decreases end - pos
  {
    if end - pos >= 4 {
      FindMssInPadding(b, pos + 1, end);
    }
  }

  /** Bytes `pos` to `end` hold option `o` first. */
  predicate Starts(b: Bytes, pos: nat, end: nat, o: TcpOption)
    requires WellFormed(o)
  {
    pos + |Encode(o)| <= end <= |b| && b[pos] == Encode(o)[0] && (o.Kind? ==> b[pos + 1] == Encode(o)[1])
  }

  /** They hold the options in order, and zeros behind them. */
  ghost predicate LaidOut(b: Bytes, pos: nat, end: nat, os: seq<TcpOption>)
    requires forall i :: 0 <= i < |os| ==> WellFormed(os[i])
    decreases |os|
  {
    if os == [] then pos <= end <= |b| && forall i :: pos <= i < end ==> b[i] == 0
    else Starts(b, pos, end, os[0]) && LaidOut(b, pos + |Encode(os[0])|, end, os[1..])
  }

  lemma {:induction false} EncodedIsLaidOut(b: Bytes, pos: nat, end: nat, os: seq<TcpOption>, pad: Bytes)
    requires pos <= end <= |b| && forall i :: 0 <= i < |os| ==> WellFormed(os[i])
    requires b[pos..end] == EncodeAll(os, pad) && forall i :: 0 <= i < |pad| ==> pad[i] == 0
    ensures LaidOut(b, pos, end, os)
    decreases |os|
  {
    if os == [] {
      PaddingIsZero(b, pos, end, pad);
    } else {
      FirstOption(b, pos, end, Encode(os[0]), EncodeAll(os[1..], pad));
      EncodedIsLaidOut(b, pos + |Encode(os[0])|, end, os[1..], pad);
    }
  }

  lemma PaddingIsZero(b: Bytes, pos: nat, end: nat, pad: Bytes)
    requires pos <= end <= |b| && b[pos..end] == pad && forall i :: 0 <= i < |pad| ==> pad[i] == 0
    ensures forall i :: pos <= i < end ==> b[i] == 0
  {}

  lemma FirstOption(b: Bytes, pos: nat, end: nat, first: Bytes, rest: Bytes)
    requires pos <= end <= |b| && b[pos..end] == first + rest && first != []
    ensures b[pos] == first[0] && (|first| > 1 ==> b[pos + 1] == first[1])
    ensures pos + |first| <= end && b[pos + |first|..end] == rest
  {}

  lemma {:induction false} ShortHasNoMss(b: Bytes, pos: nat, end: nat, os: seq<TcpOption>)
    requires forall i :: 0 <= i < |os| ==> WellFormed(os[i])
    requires LaidOut(b, pos, end, os)
    ensures end - pos < 4 ==> FirstMss(os) == None
    decreases |os|
  {
    if os != [] {
      ShortHasNoMss(b, pos + |Encode(os[0])|, end, os[1..]);
    }
  }

  lemma StopAt(b: Bytes, pos: nat, end: nat)
    requires pos + 4 <= end <= |b| && b[pos] == MSS_KIND
    ensures FindMss(b, pos, end) == Some(pos)
  {}

  /** One turn of the walk: it stops at an MSS option and steps over any other. */
  lemma FindFrom(b: Bytes, pos: nat, end: nat, o: TcpOption, tail: Option<nat>)
    requires WellFormed(o) && Starts(b, pos, end, o)
    requires FindMss(b, pos + |Encode(o)|, end) == After(pos + |Encode(o)|, tail)
    requires end - pos < 4 ==> tail == None
    ensures FindMss(b, pos, end) == After(pos, if IsMss(o) then Some(0) else After(|Encode(o)|, tail))
  {
    if IsMss(o) {
      StopAt(b, pos, end);
    }
  }

  lemma {:induction false} FindMssInLayout(b: Bytes, pos: nat, end: nat, os: seq<TcpOption>)
    requires forall i :: 0 <= i < |os| ==> WellFormed(os[i])
    requires LaidOut(b, pos, end, os)
    ensures pos <= end <= |b| && FindMss(b, pos, end) == After(pos, FirstMss(os))
    decreases |os|
  {
    if os == [] {
      FindMssInPadding(b, pos, end);
    } else {
      FindMssInLayout(b, pos + |Encode(os[0])|, end, os[1..]);
      ShortHasNoMss(b, pos + |Encode(os[0])|, end, os[1..]);
      FindFrom(b, pos, end, os[0], FirstMss(os[1..]));
    }
  }

  /** Over well-formed options and zero padding the walk finds exactly the first MSS option. */
  lemma FindMssFindsFirst(b: Bytes, pos: nat, end: nat, os: seq<TcpOption>, pad: Bytes)
    requires pos <= end <= |b| && forall i :: 0 <= i < |os| ==> WellFormed(os[i])
    requires b[pos..end] == EncodeAll(os, pad) && forall i :: 0 <= i < |pad| ==> pad[i] == 0
    ensures FindMss(b, pos, end) == After(pos, FirstMss(os))
  {
    EncodedIsLaidOut(b, pos, end, os, pad);
    FindMssInLayout(b, pos, end, os);
  }

  // ---- what the clamp does ----

  /** The value at `pos` is the smaller of the two, and only it and the checksum differ, if it was not already. */
  predicate Lowered(b: Bytes, c: Bytes, mss: U16, pos: nat) {
    && IsSyn(b) && pos + 4 <= |b| == |c|
    && U16At(c, pos + 2) == (if U16At(b, pos + 2) <= mss then U16At(b, pos + 2) else mss)
    && (U16At(b, pos + 2) <= mss ==> c == b)
    && forall i :: 0 <= i < |b| && !(pos + 2 <= i < pos + 4) && !(ChecksumAt(b) <= i < ChecksumAt(b) + 2) ==>
      c[i] == b[i]
  }

  /** The option ends up at the smaller of the two values and only it and the checksum change. */
  lemma ClampEffect(b: Bytes, mss: U16, pos: nat, c: Bytes)
    requires MssAt(b) == Some(pos) && ClampOutcome(b, mss) != Panics && c == ClampBytes(b, mss)
    ensures Lowered(b, c, mss, pos)
  {
    if ClampOutcome(b, mss).Clamped? {
      PutU16Frame(b, pos + 2, mss);
      PutU16Frame(PutU16(b, pos + 2, mss), ChecksumAt(b), Update(U16At(b, ChecksumAt(b)), [(U16At(b, pos + 2), mss)]));
    }
  }

  lemma OddBytesSum(bs: Bytes, i: nat, high: Byte, low: Byte)
    requires i + 2 <= |bs| && i % 2 == 1
    ensures WordSum(bs[i := high][i + 1 := low])
         == WordSum(bs) - bs[i] as int - 256 * (bs[i + 1] as int) + high as int + 256 * (low as int)
  {
    WordSumSet(bs, i, high);
    WordSumSet(bs[i := high], i + 1, low);
  }

  /** How far the two bytes at `i` move when they become `v`, low byte against high byte. */
  function Skew(b: Bytes, i: nat, v: U16): int
    requires i + 2 <= |b|
  {
    (v % 256 - b[i + 1] as int) - (v / 256 % 256 - b[i] as int)
  }

  /** What writing `v` at an odd offset adds to the sum beyond `v` minus the old value. */
  function Misaligned(b: Bytes, i: nat, v: U16, lo: nat): int
    requires lo <= i && i + 2 <= |b|
  {
    if (i - lo) % 2 == 0 then 0 else 255 * Skew(b, i, v)
  }

  /** The transport sum after the two writes of the clamp, for any value and any new checksum. */
  lemma SumAfterWrites(b: Bytes, c: Bytes, pos: nat, v: U16, t: U16)
    requires HasTransport(b) && b[9] == TCP
    requires PayloadStart(b) + 20 <= pos && pos + 4 <= PayloadEnd(b)
    requires c == PutU16(PutU16(b, pos + 2, v), PayloadStart(b) + 16, t)
    ensures HasTransport(c)
    ensures TransportSum(c) == TransportSum(b) - TransportChecksum(b) + t + v - U16At(b, pos + 2)
                               + Misaligned(b, pos + 2, v, PayloadStart(b))
  {
    WritesKeepShape(b, c, pos, v, t);
    PayloadSumAfterWrites(b, pos, v, t, PayloadStart(b), PayloadEnd(b));
  }

  lemma PayloadSumAfterWrites(b: Bytes, pos: nat, v: U16, t: U16, lo: nat, hi: nat)
    requires lo + 20 <= pos && pos + 4 <= hi <= |b|
    ensures var c := PutU16(PutU16(b, pos + 2, v), lo + 16, t);
      && |c| == |b|
      && WordSum(c[lo..hi]) == WordSum(b[lo..hi]) - U16At(b, lo + 16) + t + v - U16At(b, pos + 2)
        + Misaligned(b, pos + 2, v, lo)
  {
    ValueSum(b, pos + 2, v, lo, hi);
    PutU16Frame(b, pos + 2, v);
    PutInside(PutU16(b, pos + 2, v), lo + 16, t, lo, hi);
  }

  lemma WritesKeepShape(b: Bytes, c: Bytes, pos: nat, v: U16, t: U16)
    requires HasTransport(b) && b[9] == TCP
    requires PayloadStart(b) + 20 <= pos && pos + 4 <= PayloadEnd(b)
    requires c == PutU16(PutU16(b, pos + 2, v), PayloadStart(b) + 16, t)
    ensures |c| == |b| && c[12..20] == b[12..20] && c[9] == b[9] && HasTransport(c)
    ensures PayloadStart(c) == PayloadStart(b) && PayloadEnd(c) == PayloadEnd(b) && PayloadLen(c) == PayloadLen(b)
  {}

  lemma ValueSum(b: Bytes, i: nat, v: U16, lo: nat, hi: nat)
    requires lo <= i && i + 2 <= hi <= |b|
    ensures |PutU16(b, i, v)| == |b|
    ensures WordSum(PutU16(b, i, v)[lo..hi]) == WordSum(b[lo..hi]) - U16At(b, i) + v + Misaligned(b, i, v, lo)
  {
    if (i - lo) % 2 == 0 {
      PutInside(b, i, v, lo, hi);
    } else {
      assert PutU16(b, i, v)[lo..hi] == PutU16(b[lo..hi], i - lo, v);
      OddBytesSum(b[lo..hi], i - lo, v / 256 % 256, v % 256);
      SplitU16(v);
    }
  }

  lemma VerdictAfterWrites(b: Bytes, c: Bytes, pos: nat, v: U16)
    requires HasTransport(b) && b[9] == TCP && TransportVerifies(b)
    requires PayloadStart(b) + 20 <= pos && pos + 4 <= PayloadEnd(b)
    requires c == PutU16(PutU16(b, pos + 2, v), PayloadStart(b) + 16,
                         Update(TransportChecksum(b), [(U16At(b, pos + 2), v)]))
    ensures HasTransport(c)
    ensures TransportVerifies(c) <==> (pos - PayloadStart(b)) % 2 == 0 || Skew(b, pos + 2, v) % 257 == 0
  {
    var t, was := TransportChecksum(b), U16At(b, pos + 2);
    var t' := Update(t, [(was, v)]);
    SumAfterWrites(b, c, pos, v, t');
    MisalignedIff(b, pos, v, PayloadStart(b));
    VerdictOfSums(b, c, t, was, v, Misaligned(b, pos + 2, v, PayloadStart(b)),
      (pos - PayloadStart(b)) % 2 == 0, Skew(b, pos + 2, v));
  }

  lemma MisalignedIff(b: Bytes, pos: nat, v: U16, lo: nat)
    requires lo <= pos && pos + 4 <= |b|
    ensures Misaligned(b, pos + 2, v, lo) == if (pos - lo) % 2 == 0 then 0 else 255 * Skew(b, pos + 2, v)
  {}

  lemma VerdictOfSums(b: Bytes, c: Bytes, t: U16, was: U16, now: U16, extra: int, aligned: bool, skew: int)
    requires HasTransport(b) && TransportVerifies(b) && HasTransport(c)
    requires TransportSum(c) == TransportSum(b) - t + Update(t, [(was, now)]) + now - was + extra
    requires extra == if aligned then 0 else 255 * skew
    ensures TransportVerifies(c) <==> aligned || skew % 257 == 0
  {
    TransportVerifiesIff(b);
    TransportVerifiesIff(c);
    SumVerdict(TransportSum(b), TransportSum(c), t, was, now, aligned, skew);
  }

  lemma SumVerdict(sum: int, sum': int, t: U16, was: U16, now: U16, aligned: bool, skew: int)
    requires sum % ONES == 0
    requires sum' == sum - t + Update(t, [(was, now)]) + now - was + if aligned then 0 else 255 * skew
    ensures sum' % ONES == 0 <==> aligned || skew % 257 == 0
  {
    BalancedMod(sum, t, was, now);
    MultipleOf257(sum - t + Update(t, [(was, now)]) + now - was, skew);
  }

  lemma BalancedMod(sum: int, t: U16, was: U16, now: U16)
    ensures (sum - t + Update(t, [(was, now)]) + now - was) % ONES == sum % ONES
  {
    SingleGrowth(was, now);
    UpdateBalances(sum, sum + Growth([(was, now)]) - t + Update(t, [(was, now)]), t, [(was, now)]);
  }

  /**
   Clamping keeps the segment verifying exactly when the option starts at an even offset, or its
   two bytes move by amounts equal modulo 257.
   */
  lemma ClampKeepsVerdict(b: Bytes, mss: U16, pos: nat, c: Bytes)
    requires HasTransport(b) && b[9] == TCP && TransportVerifies(b)
    requires ClampOutcome(b, mss).Clamped? && MssAt(b) == Some(pos) && c == ClampBytes(b, mss)
    ensures HasTransport(c) && pos + 4 <= |b|
    ensures TransportVerifies(c) <==> (pos - PayloadStart(b)) % 2 == 0 || Skew(b, pos + 2, mss) % 257 == 0
  {
    ClampedShape(b, mss, pos);
    VerdictAfterWrites(b, c, pos, mss);
  }

  lemma ClampedShape(b: Bytes, mss: U16, pos: nat)
    requires HasTransport(b) && b[9] == TCP && ClampOutcome(b, mss).Clamped? && MssAt(b) == Some(pos)
    ensures PayloadStart(b) + 20 <= pos && pos + 4 <= PayloadEnd(b)
    ensures ClampBytes(b, mss) == PutU16(PutU16(b, pos + 2, mss), PayloadStart(b) + 16,
                                         Update(TransportChecksum(b), [(U16At(b, pos + 2), mss)]))
  {}

  lemma SingleGrowth(was: U16, now: U16)
    ensures Growth([(was, now)]) == now as int - was as int
  {}

  lemma MultipleOf257(x: int, k: int)
    requires x % ONES == 0
    ensures (x + 255 * k) % ONES == 0 <==> k % 257 == 0
  {}

  // ---- an option at an odd offset ----

  /** A SYN that verifies, its MSS option of 1460 behind a single no-op; only its options are not all zero. */
  function OddTcp(): Bytes {
    [0, 0, 0, 0, 0, 0, 0, 0] + [0, 0, 0, 0, 0x70, 2, 0, 0] + [193, 206, 0, 0, 1, 2, 4, 5] + [180, 1, 1, 1]
  }

  function OddSyn(): Bytes {
    [0x45, 0, 0, 48, 0, 0, 0, 0, 64, 6, 0, 0, 10, 0, 0, 1, 10, 0, 0, 2] + OddTcp()
  }

  lemma OddSynFields(b: Bytes)
    requires b == OddSyn()
    ensures HasTransport(b) && b[9] == TCP && PayloadStart(b) == 20 && PayloadEnd(b) == 48 && PayloadLen(b) == 28
    ensures IsSyn(b) && OptionsEnd(b) == 48
    ensures b[40] == 1 && b[41] == MSS_KIND && b[42] == 4 && b[43] == 5 && b[44] == 180
  {}

  lemma OddSynOption(b: Bytes)
    requires b == OddSyn()
    ensures MssAt(b) == Some(41) && ClampOutcome(b, 1200) == Clamped(1460)
  {
    OddSynFields(b);
    StopAt(b, 41, 48);
    assert OptionSize(b, 40) == 1;
    assert FindMss(b, 40, 48) == FindMss(b, 41, 48);
  }

  lemma OddSynVerifies(b: Bytes)
    requires b == OddSyn()
    ensures HasTransport(b) && TransportVerifies(b)
  {
    OddSynFields(b);
    OddSynSums(b);
    SumOfParts(b, 5123, 125913);
    TransportVerifiesIff(b);
  }

  lemma OddSynSums(b: Bytes)
    requires b == OddSyn()
    ensures WordSum(b[12..20]) == 5123 && WordSum(b[20..48]) == 125913
  {
    assert b[12..20] == [10, 0, 0, 1, 10, 0, 0, 2] && b[20..48] == OddTcp();
    FourWords([10, 0, 0, 1, 10, 0, 0, 2]);
    OddTcpSum();
  }

  lemma OddTcpSum()
    ensures WordSum(OddTcp()) == 125913
  {
    var t0: Bytes, t1: Bytes := [0, 0, 0, 0, 0, 0, 0, 0], [0, 0, 0, 0, 0x70, 2, 0, 0];
    var t2: Bytes, t3: Bytes := [193, 206, 0, 0, 1, 2, 4, 5], [180, 1, 1, 1];
    FourWords(t0);
    FourWords(t1);
    FourWords(t2);
    TwoWords(t3);
    FourPartsSum(t0, t1, t2, t3);
  }

  lemma FourPartsSum(t0: Bytes, t1: Bytes, t2: Bytes, t3: Bytes)
    requires |t0| % 2 == 0 && |t1| % 2 == 0 && |t2| % 2 == 0
    ensures WordSum(t0 + t1 + t2 + t3) == WordSum(t0) + WordSum(t1) + WordSum(t2) + WordSum(t3)
  {
    WordSumAppend(t0, t1);
    WordSumAppend(t0 + t1, t2);
    WordSumAppend(t0 + t1 + t2, t3);
  }

  /** Clamping it to 1200 breaks its checksum. */
  lemma OddOffsetBreaksChecksum(b: Bytes, c: Bytes)
    requires b == OddSyn() && c == ClampBytes(b, 1200)
    ensures HasTransport(b) && TransportVerifies(b) && HasTransport(c) && !TransportVerifies(c)
  {
    OddSynFields(b);
    OddSynOption(b);
    OddSynVerifies(b);
    OddSynSkew(b);
    SkewedBreaks(b, c, 1200, 41);
  }

  lemma OddSynSkew(b: Bytes)
    requires b == OddSyn()
    ensures Skew(b, 43, 1200) == -3
  {
    assert b[43] == 5 && b[44] == 180;
  }

  lemma SkewedBreaks(b: Bytes, c: Bytes, mss: U16, pos: nat)
    requires HasTransport(b) && b[9] == TCP && TransportVerifies(b) && c == ClampBytes(b, mss)
    requires ClampOutcome(b, mss).Clamped? && MssAt(b) == Some(pos)
    requires (pos - PayloadStart(b)) % 2 == 1 && pos + 4 <= |b| && Skew(b, pos + 2, mss) % 257 != 0
    ensures HasTransport(c) && !TransportVerifies(c)
  {
    ClampKeepsVerdict(b, mss, pos, c);
  }

  // ---- the whole clamp on well-formed options ----

  /** An MSS option among well-formed ones has room for its value. */
  lemma {:induction false} FirstMssHasRoom(os: seq<TcpOption>, pad: Bytes, at: nat)
    requires (forall i :: 0 <= i < |os| ==> WellFormed(os[i])) && FirstMss(os) == Some(at)
    ensures at + 4 <= |EncodeAll(os, pad)| && EncodeAll(os, pad)[at] == MSS_KIND && EncodeAll(os, pad)[at + 1] == 4
  {
    if !IsMss(os[0]) {
      FirstMssHasRoom(os[1..], pad, at - |Encode(os[0])|);
    }
  }

  lemma MssHasRoom(b: Bytes, lo: nat, hi: nat, os: seq<TcpOption>, pad: Bytes, at: nat)
    requires lo <= hi <= |b| && forall i :: 0 <= i < |os| ==> WellFormed(os[i])
    requires b[lo..hi] == EncodeAll(os, pad) && FirstMss(os) == Some(at)
    ensures lo + at + 4 <= hi && b[lo + at + 1] == 4
  {
    FirstMssHasRoom(os, pad, at);
    InPlace(b, lo, hi, EncodeAll(os, pad), at + 1);
  }

  lemma InPlace(b: Bytes, lo: nat, hi: nat, part: Bytes, i: nat)
    requires lo <= hi <= |b| && b[lo..hi] == part && i < |part|
    ensures |part| == hi - lo && b[lo + i] == part[i]
  {}

  /** Between `lo` and `hi` there are well-formed options, padded with zeros. */
  ghost predicate OptionsAre(b: Bytes, lo: nat, hi: nat, os: seq<TcpOption>, pad: Bytes) {
    && lo <= hi <= |b|
    && (forall i :: 0 <= i < |os| ==> WellFormed(os[i])) && (forall i :: 0 <= i < |pad| ==> pad[i] == 0)
    && b[lo..hi] == EncodeAll(os, pad)
  }

  lemma FoundInOptions(b: Bytes, lo: nat, hi: nat, os: seq<TcpOption>, pad: Bytes, found: Option<nat>)
    requires OptionsAre(b, lo, hi, os, pad) && found == After(lo, FirstMss(os))
    ensures FindMss(b, lo, hi) == found && (found.Some? ==> found.value + 4 <= |b| && b[found.value + 1] == 4)
  {
    FindMssFindsFirst(b, lo, hi, os, pad);
    if FirstMss(os).Some? {
      MssHasRoom(b, lo, hi, os, pad, FirstMss(os).value);
    }
  }

  /** The options of a SYN lie between `lo` and `hi`. */
  predicate IsSynWithOptions(b: Bytes, lo: nat, hi: nat) {
    IsSyn(b) && lo == PayloadStart(b) + 20 && hi == OptionsEnd(b)
  }

  /** With well-formed options the clamp never panics, and looks at exactly the first MSS option. */
  lemma WellFormedNeverPanics(b: Bytes, mss: U16, lo: nat, hi: nat, os: seq<TcpOption>, pad: Bytes, found: Option<nat>)
    requires IsSynWithOptions(b, lo, hi) && OptionsAre(b, lo, hi, os, pad) && found == After(lo, FirstMss(os))
    ensures MssAt(b) == found && ClampOutcome(b, mss) != Panics
  {
    FoundInOptions(b, lo, hi, os, pad, found);
    NoPanicAt(b, mss, lo, hi, found);
  }

  lemma NoPanicAt(b: Bytes, mss: U16, lo: nat, hi: nat, found: Option<nat>)
    requires IsSynWithOptions(b, lo, hi) && FindMss(b, lo, hi) == found
    requires found.Some? ==> found.value + 4 <= |b| && b[found.value + 1] == 4
    ensures MssAt(b) == found && ClampOutcome(b, mss) != Panics
  {}

  /**
   So for a verifying SYN with well-formed options whose first MSS option is at an even offset, the
   clamp leaves the smaller value, changes nothing but it and the checksum, and the result verifies.
   */
  lemma ClampOnWellFormed(b: Bytes, c: Bytes, mss: U16, lo: nat, hi: nat, os: seq<TcpOption>, pad: Bytes, pos: nat)
    requires HasTransport(b) && TransportVerifies(b) && c == ClampBytes(b, mss)
    requires IsSynWithOptions(b, lo, hi) && OptionsAre(b, lo, hi, os, pad)
    requires After(lo, FirstMss(os)) == Some(pos) && (pos - PayloadStart(b)) % 2 == 0
    ensures Lowered(b, c, mss, pos) && HasTransport(c) && TransportVerifies(c)
  {
    WellFormedNeverPanics(b, mss, lo, hi, os, pad, Some(pos));
    EvenClamp(b, c, mss, pos);
  }

  // ---- a packet made of its parts ----

  /** An IPv4 header, the fixed part of a TCP header, its options and data, each as long as the headers say. */
  predicate TcpParts(ip: Bytes, tcp: Bytes, options: Bytes, data: Bytes) {
    && 20 <= |ip| && ip[0] % 16 * 4 == |ip| && ip[9] == 6
    && U16At(ip, 2) as nat == |ip| + |tcp| + |options| + |data|
    && |tcp| == 20 && tcp[12] / 16 * 4 == 20 + |options|
  }

  /** The clamp looks into such a packet exactly when its SYN flag is set, and then at exactly its options. */
  lemma SynFromParts(b: Bytes, ip: Bytes, tcp: Bytes, options: Bytes, data: Bytes)
    requires TcpParts(ip, tcp, options, data) && b == ip + tcp + options + data
    ensures IsSyn(b) <==> tcp[13] / 2 % 2 == 1
    ensures IsSyn(b) ==> IsSynWithOptions(b, |ip| + 20, |ip| + 20 + |options|)
    ensures b[|ip| + 20..|ip| + 20 + |options|] == options
  {
    assert b[0] == ip[0] && b[9] == ip[9] && b[2] == ip[2] && b[3] == ip[3];
    assert b[|ip| + 13] == tcp[13] && b[|ip| + 12] == tcp[12];
  }

  lemma ClampOfOptions(b: Bytes, c: Bytes, mss: U16, lo: nat, hi: nat,
                       os: seq<TcpOption>, pad: Bytes, found: Option<nat>)
    requires IsSynWithOptions(b, lo, hi) && OptionsAre(b, lo, hi, os, pad) && found == After(lo, FirstMss(os))
    requires c == ClampBytes(b, mss)
    ensures if found.Some? then Lowered(b, c, mss, found.value) else c == b && ClampOutcome(b, mss) == Unchanged
  {
    WellFormedNeverPanics(b, mss, lo, hi, os, pad, found);
    if found.Some? {
      ClampEffect(b, mss, found.value, c);
    }
  }

  lemma NotSynUntouched(b: Bytes, mss: U16)
    requires !IsSyn(b)
    ensures ClampBytes(b, mss) == b && ClampOutcome(b, mss) == Unchanged
  {}

  /** Without the flag nothing is touched, with it and any other flags the first MSS option is lowered. */
  lemma ClampOfParts(b: Bytes, c: Bytes, ip: Bytes, tcp: Bytes, os: seq<TcpOption>, pad: Bytes, data: Bytes, mss: U16)
    requires forall i :: 0 <= i < |os| ==> WellFormed(os[i])
    requires TcpParts(ip, tcp, EncodeAll(os, pad), data) && forall i :: 0 <= i < |pad| ==> pad[i] == 0
    requires b == ip + tcp + EncodeAll(os, pad) + data && c == ClampBytes(b, mss)
    ensures
      if tcp[13] / 2 % 2 == 1 && FirstMss(os).Some? then Lowered(b, c, mss, |ip| + 20 + FirstMss(os).value)
      else c == b && ClampOutcome(b, mss) == Unchanged
  {
    var lo, options := |ip| + 20, EncodeAll(os, pad);
    SynFromParts(b, ip, tcp, options, data);
    if tcp[13] / 2 % 2 == 1 {
      ClampOfOptions(b, c, mss, lo, lo + |options|, os, pad, After(lo, FirstMss(os)));
    } else {
      NotSynUntouched(b, mss);
    }
  }

  lemma EvenClamp(b: Bytes, c: Bytes, mss: U16, pos: nat)
    requires HasTransport(b) && b[9] == TCP && TransportVerifies(b) && c == ClampBytes(b, mss)
    requires MssAt(b) == Some(pos) && ClampOutcome(b, mss) != Panics && (pos - PayloadStart(b)) % 2 == 0
    ensures Lowered(b, c, mss, pos) && HasTransport(c) && TransportVerifies(c)
  {
    ClampEffect(b, mss, pos, c);
    StillVerifies(b, c, mss, pos);
  }

  lemma StillVerifies(b: Bytes, c: Bytes, mss: U16, pos: nat)
    requires HasTransport(b) && b[9] == TCP && TransportVerifies(b) && c == ClampBytes(b, mss)
    requires MssAt(b) == Some(pos) && (pos - PayloadStart(b)) % 2 == 0
    ensures HasTransport(c) && TransportVerifies(c)
  {
    if ClampOutcome(b, mss).Clamped? {
      ClampKeepsVerdict(b, mss, pos, c);
    } else {
      assert c == b;
    }
  }

  /** The fragment offset plays no part: a later fragment whose payload looks like a SYN is rewritten like one. */
  lemma FragmentOffsetIgnored(b: Bytes, d: Bytes, mss: U16, v: U16)
    requires IsIpv4(b) && d == PutU16(b, 6, v)
    ensures IsIpv4(d) && MssAt(d) == MssAt(b) && ClampOutcome(d, mss) == ClampOutcome(b, mss)
  {
    PutU16Frame(b, 6, v);
    SameSyn(b, d);
    if IsSyn(b) {
      SameWalk(b, d, PayloadStart(b) + 20, OptionsEnd(b));
    }
  }

  lemma SameSyn(b: Bytes, d: Bytes)
    requires IsIpv4(b) && |d| == |b| && forall i :: 0 <= i < |b| && i != 6 && i != 7 ==> d[i] == b[i]
    ensures IsSyn(d) == IsSyn(b) && PayloadStart(d) == PayloadStart(b) && (IsSyn(b) ==> OptionsEnd(d) == OptionsEnd(b))
  {}

  lemma {:induction false} SameWalk(b: Bytes, d: Bytes, pos: nat, end: nat)
    requires pos <= end <= |b| == |d| && forall i :: pos <= i < end ==> d[i] == b[i]
    ensures FindMss(d, pos, end) == FindMss(b, pos, end)
    decreases end - pos
  {
    if end - pos >= 4 && b[pos] != MSS_KIND && pos + OptionSize(b, pos) <= end {
      SameWalk(b, d, pos + OptionSize(b, pos), end);
    }
  }
}
