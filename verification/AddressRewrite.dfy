/** IPv4 packets as byte buffers, and the field accessors the source takes from its packet library. */
module Ipv4Packets {
  import opened OnesComplement

  const TCP: Byte := 6
  const UDP: Byte := 17

  predicate IsIpv4(b: Bytes) {
    |b| >= 20
  }

  function HeaderLen(b: Bytes): nat
    requires IsIpv4(b)
  {
    b[0] % 16 * 4
  }

  function PayloadStart(b: Bytes): nat
    requires IsIpv4(b)
  {
    if HeaderLen(b) < 20 then 20 else HeaderLen(b)
  }

  /** Payload of `total_length - header_length` bytes, cut off at the end of the buffer. */
  function PayloadEnd(b: Bytes): (e: nat)
    requires IsIpv4(b)
    ensures PayloadStart(b) <= |b| ==> PayloadStart(b) <= e <= |b|
  {
    var size := if U16At(b, 2) < HeaderLen(b) then 0 else U16At(b, 2) as nat - HeaderLen(b);
    if PayloadStart(b) + size < |b| then PayloadStart(b) + size else |b|
  }

  function PayloadLen(b: Bytes): nat
    requires IsIpv4(b)
  {
    if |b| <= PayloadStart(b) then 0 else PayloadEnd(b) - PayloadStart(b)
  }

  function FragmentOffset(b: Bytes): nat
    requires IsIpv4(b)
  {
    U16At(b, 6) % 0x2000
  }

  /** Offset of the checksum field within a TCP or UDP header. */
  function ChecksumOffset(proto: Byte): nat {
    if proto == TCP then 16 else 6
  }

  function MinTransport(proto: Byte): nat {
    if proto == TCP then 20 else 8
  }

  /** The packet is a first (or only) fragment carrying a whole TCP or UDP header. */
  predicate HasTransport(b: Bytes) {
    && IsIpv4(b)
    && FragmentOffset(b) == 0
    && (b[9] == TCP || b[9] == UDP)
    && PayloadLen(b) >= MinTransport(b[9])
  }

  function TransportChecksumAt(b: Bytes): (at: nat)
    requires HasTransport(b)
    ensures PayloadStart(b) <= at && at + 2 <= PayloadEnd(b) <= |b|
  {
    PayloadStart(b) + ChecksumOffset(b[9])
  }

  function TransportChecksum(b: Bytes): U16
    requires HasTransport(b)
  {
    U16At(b, TransportChecksumAt(b))
  }

  predicate WellFormedHeader(b: Bytes) {
    IsIpv4(b) && 20 <= HeaderLen(b) <= |b|
  }

  // ---- what a receiver checks ----

  predicate HeaderVerifies(b: Bytes)
    requires WellFormedHeader(b)
  {
    Verifies(b[0..HeaderLen(b)])
  }

  function PseudoHeader(b: Bytes, proto: Byte, length: nat): Bytes
    requires IsIpv4(b)
  {
    b[12..20] + [0, proto] + BE16(length)
  }

  predicate TransportVerifies(b: Bytes)
    requires HasTransport(b)
  {
    Verifies(PseudoHeader(b, b[9], PayloadLen(b)) + b[PayloadStart(b)..PayloadEnd(b)])
  }

  /** A zero UDP checksum means the sender did not compute one. */
  predicate TransportAccepts(b: Bytes)
    requires HasTransport(b)
  {
    (b[9] == UDP && TransportChecksum(b) == 0) || TransportVerifies(b)
  }

  // ---- sums over parts of a packet ----

  lemma PutInside(b: Bytes, i: nat, v: U16, lo: nat, hi: nat)
    requires lo <= i && i + 2 <= hi <= |b| && (i - lo) % 2 == 0
    ensures |PutU16(b, i, v)| == |b|
    ensures WordSum(PutU16(b, i, v)[lo..hi]) == WordSum(b[lo..hi]) - U16At(b, i) + v
  {
    assert PutU16(b, i, v)[lo..hi] == PutU16(b[lo..hi], i - lo, v);
    PutU16Sum(b[lo..hi], i - lo, v);
  }

  lemma PutOutside(b: Bytes, i: nat, v: U16, lo: nat, hi: nat)
    requires i + 2 <= |b| && lo <= hi <= |b| && (i + 2 <= lo || hi <= i)
    ensures |PutU16(b, i, v)| == |b|
    ensures PutU16(b, i, v)[lo..hi] == b[lo..hi]
  {}

  function TransportSum(b: Bytes): nat
    requires HasTransport(b)
  {
    WordSum(b[12..20]) + b[9] as nat + WordSum(BE16(PayloadLen(b))) + WordSum(b[PayloadStart(b)..PayloadEnd(b)])
  }

  lemma TransportVerifiesIff(b: Bytes)
    requires HasTransport(b)
    ensures TransportVerifies(b) <==> TransportSum(b) % ONES == 0
  {
    var pseudo := PseudoHeader(b, b[9], PayloadLen(b));
    var payload := b[PayloadStart(b)..PayloadEnd(b)];
    WordSumAppend(b[12..20], [0, b[9]]);
    WordSumAppend(b[12..20] + [0, b[9]], BE16(PayloadLen(b)));
    WordSumAppend(pseudo, payload);
    VerifiesIff(pseudo + payload);
  }

  lemma HeaderVerifiesIff(b: Bytes)
    requires WellFormedHeader(b)
    ensures HeaderVerifies(b) <==> WordSum(b[0..HeaderLen(b)]) % ONES == 0
  {
    VerifiesIff(b[0..HeaderLen(b)]);
    assert WordSum(b[0..HeaderLen(b)]) >= 256 * (b[0] as nat);
  }
}

module AddressRewrite {
  import opened OnesComplement
  import opened IncrementalChecksum
  import opened Ipv4Packets

  type Updates = seq<(U16, U16)>

  function AddressUpdates(was: Bytes, now: Bytes): Updates
    requires |was| == 4 && |now| == 4
  {
    [(U16At(was, 0), U16At(now, 0)), (U16At(was, 2), U16At(now, 2))]
  }

  function PutAddress(b: Bytes, at: nat, ip: Bytes): Bytes
    requires at + 4 <= |b| && |ip| == 4
  {
    PutU16(PutU16(b, at, U16At(ip, 0)), at + 2, U16At(ip, 2))
  }

  function AdjustHeader(b: Bytes, updates: Updates): Bytes
    requires IsIpv4(b)
  {
    PutU16(b, 10, Update(U16At(b, 10), updates))
  }

  /** TCP always, UDP only when it carries a checksum at all. */
  function AdjustTransport(b: Bytes, updates: Updates): Bytes {
    if HasTransport(b) && !(b[9] == UDP && TransportChecksum(b) == 0)
    then PutU16(b, TransportChecksumAt(b), Update(TransportChecksum(b), updates))
    else b
  }

  /** The packet with the address at `at` (12 source, 16 destination) replaced. */
  function Rewrite(b: Bytes, at: nat, ip: Bytes): Bytes
    requires at == 12 || at == 16
    requires |ip| == 4
  {
    if !IsIpv4(b) then b
    else
      var updates := AddressUpdates(b[at..at + 4], ip);
      AdjustTransport(AdjustHeader(PutAddress(b, at, ip), updates), updates)
  }

  // ---- the imperative form ----

  method UpdatesFromIpv4Address(was: Bytes, now: Bytes) returns (updates: Updates)
    requires |was| == 4 && |now| == 4
    ensures updates == AddressUpdates(was, now)
  {
    updates := [];
    for i := 0 to 2
      invariant updates == AddressUpdates(was, now)[..i]
    {
      updates := updates + [(U16At(was, i * 2), U16At(now, i * 2))];
    }
  }

  method AdjustTcpChecksum(buf: array<Byte>, updates: Updates)
    requires IsIpv4(buf[..])
    modifies buf
    ensures buf[..] == if PayloadLen(old(buf[..])) < 20 then old(buf[..])
                       else PutU16(old(buf[..]), PayloadStart(old(buf[..])) + 16,
                                   Update(U16At(old(buf[..]), PayloadStart(old(buf[..])) + 16), updates))
  {
    if PayloadLen(buf[..]) < 20 {
      return;
    }
    var at := PayloadStart(buf[..]) + 16;
    SetU16(buf, at, Update(U16At(buf[..], at), updates));
  }

  method AdjustUdpChecksum(buf: array<Byte>, updates: Updates)
    requires IsIpv4(buf[..])
    modifies buf
    ensures buf[..] == if PayloadLen(old(buf[..])) < 8 || U16At(old(buf[..]), PayloadStart(old(buf[..])) + 6) == 0
                       then old(buf[..])
                       else PutU16(old(buf[..]), PayloadStart(old(buf[..])) + 6,
                                   Update(U16At(old(buf[..]), PayloadStart(old(buf[..])) + 6), updates))
  {
    if PayloadLen(buf[..]) < 8 {
      return;
    }
    var at := PayloadStart(buf[..]) + 6;
    if U16At(buf[..], at) != 0 {
      SetU16(buf, at, Update(U16At(buf[..], at), updates));
    }
  }

  method AdjustIpv4Checksum(buf: array<Byte>, updates: Updates)
    requires IsIpv4(buf[..])
    modifies buf
    ensures buf[..] == AdjustTransport(AdjustHeader(old(buf[..]), updates), updates)
  {
    SetU16(buf, 10, Update(U16At(buf[..], 10), updates));
    if FragmentOffset(buf[..]) != 0 {
      return;
    }
    if buf[9] == TCP {
      AdjustTcpChecksum(buf, updates);
    } else if buf[9] == UDP {
      AdjustUdpChecksum(buf, updates);
    }
  }

  method UpdateAddress(buf: array<Byte>, at: nat, ip: Bytes)
    requires at == 12 || at == 16
    requires |ip| == 4
    modifies buf
    ensures buf[..] == Rewrite(old(buf[..]), at, ip)
  {
    if buf.Length < 20 {
      return;
    }
    var was := buf[at..at + 4];
    SetU16(buf, at, U16At(ip, 0));
    SetU16(buf, at + 2, U16At(ip, 2));
    var updates := UpdatesFromIpv4Address(was, ip);
    AdjustIpv4Checksum(buf, updates);
  }

  // ---- what a rewrite does to the packet ----

  /** The transport checksum field is maintained: TCP, or UDP that is not marked unchecked. */
  predicate Maintained(b: Bytes) {
    HasTransport(b) && !(b[9] == UDP && TransportChecksum(b) == 0)
  }

  predicate SameShape(b: Bytes, c: Bytes)
    requires IsIpv4(b)
  {
    |c| == |b| && c[..10] == b[..10]
  }

  lemma ShapeDecides(b: Bytes, c: Bytes)
    requires IsIpv4(b) && SameShape(b, c)
    ensures HeaderLen(c) == HeaderLen(b) && PayloadStart(c) == PayloadStart(b) && PayloadEnd(c) == PayloadEnd(b)
    ensures PayloadLen(c) == PayloadLen(b) && c[9] == b[9] && HasTransport(c) == HasTransport(b)
  {}

  /** Byte `i` is one the rewrite is meant to change. */
  predicate Touched(b: Bytes, at: nat, i: nat)
    requires IsIpv4(b)
  {
    || at <= i < at + 4
    || 10 <= i < 12
    || (Maintained(b) && TransportChecksumAt(b) <= i < TransportChecksumAt(b) + 2)
  }

  /** The rewrite changes the address and the maintained checksums, and no other byte. */
  lemma RewriteFields(b: Bytes, at: nat, ip: Bytes)
    requires IsIpv4(b) && (at == 12 || at == 16) && |ip| == 4
    ensures var c, updates := Rewrite(b, at, ip), AddressUpdates(b[at..at + 4], ip);
      && SameShape(b, c)
      && c[at..at + 4] == ip
      && U16At(c, 10) == Update(U16At(b, 10), updates)
      && HasTransport(c) == HasTransport(b)
      && (HasTransport(b) ==> TransportChecksumAt(c) == TransportChecksumAt(b))
      && (HasTransport(b) ==>
            TransportChecksum(c) ==
            if Maintained(b) then Update(TransportChecksum(b), updates) else TransportChecksum(b))
      && (forall i :: 0 <= i < |b| && !Touched(b, at, i) ==> c[i] == b[i])
  {
    var updates := AddressUpdates(b[at..at + 4], ip);
    var staged := AdjustHeader(PutAddress(b, at, ip), updates);
    AdjustHeaderFrame(b, at, ip, updates);
    SameMaintained(b, staged);
    AdjustTransportFrame(staged, updates);
    ShapeDecides(b, Rewrite(b, at, ip));
  }

  /** An IPv4 header and a whole TCP or UDP segment, each as long as the header says, not a later fragment. */
  predicate TransportParts(header: Bytes, segment: Bytes) {
    && 20 <= |header| && header[0] % 16 * 4 == |header|
    && U16At(header, 2) as nat == |header| + |segment| && U16At(header, 6) % 0x2000 == 0
    && (header[9] == 6 || header[9] == 17)
    && |segment| >= (if header[9] == 6 then 20 else 8)
  }

  lemma PartsHaveTransport(b: Bytes, header: Bytes, segment: Bytes)
    requires TransportParts(header, segment) && b == header + segment
    ensures HasTransport(b) && PayloadStart(b) == |header| && PayloadEnd(b) == |b|
    ensures TransportChecksumAt(b) == |header| + (if header[9] == 6 then 16 else 6)
    ensures Maintained(b) <==> header[9] == 6 || segment[6..8] != [0, 0]
  {
    assert b[0] == header[0] && b[9] == header[9];
    assert b[2] == header[2] && b[3] == header[3] && b[6] == header[6] && b[7] == header[7];
    assert header[9] == 17 ==> b[|header| + 6] == segment[6] && b[|header| + 7] == segment[7];
  }

  /**
   Of a packet made of a header and a segment, only the address, the header checksum at byte 10 and the segment's
   checksum - at byte 16 of TCP, at byte 6 of UDP unless that is zero - are rewritten.
   */
  lemma RewriteOfParts(b: Bytes, c: Bytes, at: nat, ip: Bytes, header: Bytes, segment: Bytes)
    requires TransportParts(header, segment) && b == header + segment
    requires (at == 12 || at == 16) && |ip| == 4 && c == Rewrite(b, at, ip)
    ensures |c| == |b| && c[at..at + 4] == ip
    ensures forall i :: 0 <= i < |header| && !(at <= i < at + 4) && !(10 <= i < 12) ==> c[i] == header[i]
    ensures var sum := |header| + if header[9] == 6 then 16 else 6;
      forall i :: |header| <= i < |b| && !(sum <= i < sum + 2) ==> c[i] == segment[i - |header|]
    ensures header[9] == 17 && segment[6..8] == [0, 0] ==> c[|header|..] == segment
  {
    PartsHaveTransport(b, header, segment);
    RewriteFields(b, at, ip);
  }

  /** Of a later fragment, or of any other protocol, nothing but the header is rewritten. */
  lemma NoTransportNoChange(b: Bytes, at: nat, ip: Bytes)
    requires IsIpv4(b) && (at == 12 || at == 16) && |ip| == 4
    requires U16At(b, 6) % 0x2000 != 0 || (b[9] != 6 && b[9] != 17)
    ensures |Rewrite(b, at, ip)| == |b| && Rewrite(b, at, ip)[20..] == b[20..]
  {
    RewriteFields(b, at, ip);
  }

  lemma SameMaintained(b: Bytes, s: Bytes)
    requires IsIpv4(b) && SameShape(b, s) && forall i :: 20 <= i < |b| ==> s[i] == b[i]
    ensures HasTransport(s) == HasTransport(b) && Maintained(s) == Maintained(b)
    ensures HasTransport(b) ==>
              TransportChecksumAt(s) == TransportChecksumAt(b) && TransportChecksum(s) == TransportChecksum(b)
  {}

  lemma AdjustHeaderFrame(b: Bytes, at: nat, ip: Bytes, updates: Updates)
    requires IsIpv4(b) && (at == 12 || at == 16) && |ip| == 4
    ensures var c := AdjustHeader(PutAddress(b, at, ip), updates);
      && SameShape(b, c)
      && c[at..at + 4] == ip
      && U16At(c, 10) == Update(U16At(b, 10), updates)
      && (forall i :: 0 <= i < |b| && !(at <= i < at + 4) && !(10 <= i < 12) ==> c[i] == b[i])
  {
    PutAddressFrame(b, at, ip);
    PutU16Frame(PutAddress(b, at, ip), 10, Update(U16At(b, 10), updates));
  }

  lemma AdjustTransportFrame(b: Bytes, updates: Updates)
    requires IsIpv4(b)
    ensures var c := AdjustTransport(b, updates);
      && SameShape(b, c)
      && (forall i :: 0 <= i < |b| && !(Maintained(b) && TransportChecksumAt(b) <= i < TransportChecksumAt(b) + 2)
            ==> c[i] == b[i])
      && (Maintained(b) ==> U16At(c, TransportChecksumAt(b)) == Update(TransportChecksum(b), updates))
  {}

  lemma PutAddressFrame(b: Bytes, at: nat, ip: Bytes)
    requires at + 4 <= |b| && |ip| == 4
    ensures |PutAddress(b, at, ip)| == |b| && PutAddress(b, at, ip)[at..at + 4] == ip
    ensures forall k :: 0 <= k < |b| && !(at <= k < at + 4) ==> PutAddress(b, at, ip)[k] == b[k]
  {
    PutU16Frame(b, at, U16At(ip, 0));
    PutU16Frame(PutU16(b, at, U16At(ip, 0)), at + 2, U16At(ip, 2));
  }

  lemma GrowthOfAddress(was: Bytes, now: Bytes)
    requires |was| == 4 && |now| == 4
    ensures Growth(AddressUpdates(was, now)) == U16At(now, 0) as int + U16At(now, 2) as int
                                              - U16At(was, 0) as int - U16At(was, 2) as int
  {
    var us := AddressUpdates(was, now);
    var rest: Updates := us[1..];
    assert rest == [us[1]];
    assert Growth(rest) == us[1].1 as int - us[1].0 as int + Growth(rest[1..]);
  }

  lemma PutAddressInside(b: Bytes, at: nat, ip: Bytes, lo: nat, hi: nat)
    requires |ip| == 4 && lo <= at && at + 4 <= hi <= |b| && (at - lo) % 2 == 0
    ensures |PutAddress(b, at, ip)| == |b|
    ensures WordSum(PutAddress(b, at, ip)[lo..hi])
         == WordSum(b[lo..hi]) + Growth(AddressUpdates(b[at..at + 4], ip))
  {
    PutInside(b, at, U16At(ip, 0), lo, hi);
    PutInside(PutU16(b, at, U16At(ip, 0)), at + 2, U16At(ip, 2), lo, hi);
    GrowthOfAddress(b[at..at + 4], ip);
  }

  /** The address and the header checksum in place, the transport checksum not yet. */
  function Staged(b: Bytes, at: nat, ip: Bytes): Bytes
    requires IsIpv4(b) && (at == 12 || at == 16) && |ip| == 4
  {
    AdjustHeader(PutAddress(b, at, ip), AddressUpdates(b[at..at + 4], ip))
  }

  lemma HeaderSumStaged(b: Bytes, at: nat, ip: Bytes, h: nat)
    requires IsIpv4(b) && (at == 12 || at == 16) && |ip| == 4 && 20 <= h <= |b|
    ensures var us := AddressUpdates(b[at..at + 4], ip);
      && |Staged(b, at, ip)| == |b|
      && WordSum(Staged(b, at, ip)[0..h]) == WordSum(b[0..h]) + Growth(us) - U16At(b, 10) + Update(U16At(b, 10), us)
  {
    var us := AddressUpdates(b[at..at + 4], ip);
    var b1 := PutAddress(b, at, ip);
    PutAddressFrame(b, at, ip);
    PutAddressInside(b, at, ip, 0, h);
    PutInside(b1, 10, Update(U16At(b, 10), us), 0, h);
  }

  lemma AddressesSumStaged(b: Bytes, at: nat, ip: Bytes)
    requires IsIpv4(b) && (at == 12 || at == 16) && |ip| == 4
    ensures |Staged(b, at, ip)| == |b|
    ensures WordSum(Staged(b, at, ip)[12..20]) == WordSum(b[12..20]) + Growth(AddressUpdates(b[at..at + 4], ip))
    ensures forall i :: 20 <= i < |b| ==> Staged(b, at, ip)[i] == b[i]
  {
    var us := AddressUpdates(b[at..at + 4], ip);
    var b1 := PutAddress(b, at, ip);
    PutAddressFrame(b, at, ip);
    PutAddressInside(b, at, ip, 12, 20);
    PutOutside(b1, 10, Update(U16At(b, 10), us), 12, 20);
    PutU16Frame(b1, 10, Update(U16At(b, 10), us));
  }

  lemma AdjustTransportOutside(b: Bytes, us: Updates, lo: nat, hi: nat)
    requires IsIpv4(b) && lo <= hi <= |b| && hi <= PayloadStart(b)
    ensures |AdjustTransport(b, us)| == |b| && AdjustTransport(b, us)[lo..hi] == b[lo..hi]
  {}

  lemma HeaderSumAfter(b: Bytes, at: nat, ip: Bytes)
    requires WellFormedHeader(b) && (at == 12 || at == 16) && |ip| == 4
    ensures var us := AddressUpdates(b[at..at + 4], ip);
      && |Rewrite(b, at, ip)| == |b|
      && WordSum(Rewrite(b, at, ip)[0..HeaderLen(b)])
         == WordSum(b[0..HeaderLen(b)]) + Growth(us) - U16At(b, 10) + Update(U16At(b, 10), us)
  {
    var us := AddressUpdates(b[at..at + 4], ip);
    HeaderSumStaged(b, at, ip, HeaderLen(b));
    AdjustHeaderFrame(b, at, ip, us);
    ShapeDecides(b, Staged(b, at, ip));
    AdjustTransportOutside(Staged(b, at, ip), us, 0, HeaderLen(b));
  }

  lemma TransportSumAfter(b: Bytes, at: nat, ip: Bytes)
    requires Maintained(b) && (at == 12 || at == 16) && |ip| == 4
    ensures var us := AddressUpdates(b[at..at + 4], ip);
      && HasTransport(Rewrite(b, at, ip))
      && TransportSum(Rewrite(b, at, ip))
         == TransportSum(b) + Growth(us) - TransportChecksum(b) + Update(TransportChecksum(b), us)
  {
    var us := AddressUpdates(b[at..at + 4], ip);
    var s := Staged(b, at, ip);
    AddressesSumStaged(b, at, ip);
    AdjustHeaderFrame(b, at, ip, us);
    ShapeDecides(b, s);
    SameTransport(b, s);
    AdjustTransportSum(s, us);
  }

  lemma SameTransport(b: Bytes, s: Bytes)
    requires HasTransport(b) && SameShape(b, s) && forall i :: 20 <= i < |b| ==> s[i] == b[i]
    ensures HasTransport(s) && TransportChecksumAt(s) == TransportChecksumAt(b)
    ensures TransportChecksum(s) == TransportChecksum(b)
    ensures TransportSum(s) - WordSum(s[12..20]) == TransportSum(b) - WordSum(b[12..20])
  {
    ShapeDecides(b, s);
    assert s[PayloadStart(b)..PayloadEnd(b)] == b[PayloadStart(b)..PayloadEnd(b)];
  }

  lemma AdjustTransportSum(b: Bytes, us: Updates)
    requires Maintained(b)
    ensures HasTransport(AdjustTransport(b, us))
    ensures TransportSum(AdjustTransport(b, us))
         == TransportSum(b) - TransportChecksum(b) + Update(TransportChecksum(b), us)
  {
    AdjustTransportFrame(b, us);
    ShapeDecides(b, AdjustTransport(b, us));
    PutOutside(b, TransportChecksumAt(b), Update(TransportChecksum(b), us), 12, 20);
    PutInside(b, TransportChecksumAt(b), Update(TransportChecksum(b), us), PayloadStart(b), PayloadEnd(b));
  }

  lemma UpdateBalances(sum: int, sum': int, c: U16, us: Updates)
    requires sum' == sum + Growth(us) - c + Update(c, us)
    ensures sum' % ONES == sum % ONES
  {
    UpdateExact(c, us);
    var d := Update(c, us) as int - (c as int - Growth(us));
    CongruentDifference(Update(c, us), c as int - Growth(us));
    ModAddMultiple(sum, d / ONES);
  }

  // ---- the promises ----

  /** A receiver's verdict on the IPv4 header is the same before and after, good or bad. */
  lemma RewriteKeepsHeaderVerdict(b: Bytes, at: nat, ip: Bytes)
    requires WellFormedHeader(b) && (at == 12 || at == 16) && |ip| == 4
    ensures WellFormedHeader(Rewrite(b, at, ip))
    ensures HeaderVerifies(Rewrite(b, at, ip)) <==> HeaderVerifies(b)
  {
    var c := Rewrite(b, at, ip);
    RewriteFields(b, at, ip);
    ShapeDecides(b, c);
    HeaderSumAfter(b, at, ip);
    UpdateBalances(WordSum(b[0..HeaderLen(b)]), WordSum(c[0..HeaderLen(b)]), U16At(b, 10),
                   AddressUpdates(b[at..at + 4], ip));
    HeaderVerifiesIff(b);
    HeaderVerifiesIff(c);
  }

  /** Updating `c` gives zero: it is zero modulo 65535, and not the all ones that survive. */
  predicate DropsToZero(c: U16, us: Updates) {
    (c as int - Growth(us)) % ONES == 0 && !(c == ONES && AllOnesToZero(us))
  }

  /** The update turns the checksum of a checked datagram into the zero that means "unchecked". */
  predicate TurnsUnchecked(b: Bytes, at: nat, ip: Bytes)
    requires IsIpv4(b) && (at == 12 || at == 16) && |ip| == 4
  {
    Maintained(b) && b[9] == UDP && DropsToZero(TransportChecksum(b), AddressUpdates(b[at..at + 4], ip))
  }

  lemma ChecksumAfter(b: Bytes, at: nat, ip: Bytes, c: Bytes)
    requires Maintained(b) && (at == 12 || at == 16) && |ip| == 4 && c == Rewrite(b, at, ip)
    ensures HasTransport(c)
    ensures TransportChecksum(c) == Update(TransportChecksum(b), AddressUpdates(b[at..at + 4], ip))
  {
    RewriteFields(b, at, ip);
    ShapeDecides(b, c);
  }

  lemma TurnsUncheckedIff(b: Bytes, at: nat, ip: Bytes, c: Bytes)
    requires Maintained(b) && b[9] == UDP && (at == 12 || at == 16) && |ip| == 4 && c == Rewrite(b, at, ip)
    ensures HasTransport(c)
    ensures TransportChecksum(c) == 0 <==> TurnsUnchecked(b, at, ip)
  {
    ChecksumAfter(b, at, ip, c);
    UpdatedToZero(TransportChecksum(b), AddressUpdates(b[at..at + 4], ip));
  }

  lemma UpdatedToZero(c: U16, us: Updates)
    ensures Update(c, us) == 0 <==> DropsToZero(c, us)
  {
    UpdateExact(c, us);
  }

  /**
   A TCP receiver's verdict never changes. A UDP receiver that accepted still accepts; one that
   would have rejected accepts afterwards exactly when the update turned the checksum into the
   zero that means "unchecked".
   */
  lemma RewriteKeepsTransportVerdict(b: Bytes, at: nat, ip: Bytes)
    requires HasTransport(b) && (at == 12 || at == 16) && |ip| == 4
    ensures HasTransport(Rewrite(b, at, ip))
    ensures TransportAccepts(Rewrite(b, at, ip)) <==> TransportAccepts(b) || TurnsUnchecked(b, at, ip)
  {
    var c := Rewrite(b, at, ip);
    RewriteFields(b, at, ip);
    ShapeDecides(b, c);
    if Maintained(b) {
      TransportSumAfter(b, at, ip);
      UpdateBalances(TransportSum(b), TransportSum(c), TransportChecksum(b), AddressUpdates(b[at..at + 4], ip));
      TransportVerifiesIff(b);
      TransportVerifiesIff(c);
      if b[9] == UDP {
        TurnsUncheckedIff(b, at, ip, c);
      }
    }
  }

  /**
   Rewriting an address and rewriting it back restores the packet byte for byte exactly when no
   maintained checksum was 0xFFFF and no UDP checksum becomes zero on the way.
   */
  lemma RewriteThereAndBack(b: Bytes, at: nat, ip: Bytes)
    requires IsIpv4(b) && (at == 12 || at == 16) && |ip| == 4
    ensures Rewrite(Rewrite(b, at, ip), at, b[at..at + 4]) == b <==>
              && U16At(b, 10) != ONES
              && (Maintained(b) ==> TransportChecksum(b) != ONES)
              && !TurnsUnchecked(b, at, ip)
  {
    var c := Rewrite(b, at, ip);
    var d := Rewrite(c, at, b[at..at + 4]);
    BackFields(b, at, ip);
    RestoredIff(b, d, at, Maintained(c));
    if Maintained(b) && b[9] == UDP {
      TurnsUncheckedIff(b, at, ip, c);
      RewriteFields(b, at, ip);
      ShapeDecides(b, c);
    }
  }

  /** A datagram from 10.0.0.1 to 10.0.0.2 whose checksum, 2, is wrong. */
  function WrongDatagram(): Bytes {
    [0x45, 0, 0, 28, 0, 0, 0, 0, 64, 17, 0, 0, 10, 0, 0, 1, 10, 0, 0, 2, 0, 0, 0, 0, 0, 8, 0, 2]
  }

  lemma TwoWords(w: Bytes)
    requires |w| == 4
    ensures WordSum(w) == 256 * (w[0] as nat + w[2] as nat) + w[1] as nat + w[3] as nat
  {
    var w2: Bytes := w[2..];
    assert w2[2..] == [] && WordSum(w2) == 256 * (w2[0] as nat) + w2[1] as nat + WordSum(w2[2..]);
  }

  lemma FourWords(w: Bytes)
    requires |w| == 8
    ensures WordSum(w) == 256 * (w[0] as nat + w[2] as nat + w[4] as nat + w[6] as nat)
                          + w[1] as nat + w[3] as nat + w[5] as nat + w[7] as nat
  {
    WordSumAppend(w[..4], w[4..]);
    assert w == w[..4] + w[4..];
    TwoWords(w[..4]);
    TwoWords(w[4..]);
  }

  lemma WrongDatagramFields(b: Bytes)
    requires b == WrongDatagram()
    ensures HasTransport(b) && b[9] == UDP && PayloadStart(b) == 20 && PayloadEnd(b) == 28 && PayloadLen(b) == 8
    ensures TransportChecksum(b) == 2
  {}

  lemma WrongDatagramIsRejected(b: Bytes)
    requires b == WrongDatagram()
    ensures HasTransport(b) && !TransportAccepts(b)
  {
    WrongDatagramFields(b);
    assert b[12..20] == [10, 0, 0, 1, 10, 0, 0, 2] && b[20..28] == [0, 0, 0, 0, 0, 8, 0, 2];
    FourWords([10, 0, 0, 1, 10, 0, 0, 2]);
    FourWords([0, 0, 0, 0, 0, 8, 0, 2]);
    SumOfParts(b, 5123, 10);
    TransportVerifiesIff(b);
  }

  lemma SumOfParts(b: Bytes, addresses: nat, payload: nat)
    requires HasTransport(b) && PayloadLen(b) < 0x1_0000
    requires WordSum(b[12..20]) == addresses && WordSum(b[PayloadStart(b)..PayloadEnd(b)]) == payload
    ensures TransportSum(b) == addresses + b[9] as nat + PayloadLen(b) + payload
  {
    SumOfBE16(PayloadLen(b));
  }

  /** Rewriting its source to 10.0.0.3 turns the checksum into zero: rejected before, accepted after. */
  lemma RejectedThenAccepted(b: Bytes, ip: Bytes)
    requires b == WrongDatagram() && ip == [10, 0, 0, 3]
    ensures HasTransport(b) && !TransportAccepts(b)
    ensures HasTransport(Rewrite(b, 12, ip)) && TransportAccepts(Rewrite(b, 12, ip))
  {
    WrongDatagramFields(b);
    WrongDatagramIsRejected(b);
    assert b[12..16] == [10, 0, 0, 1];
    GrowthOfAddress(b[12..16], ip);
    RewriteKeepsTransportVerdict(b, 12, ip);
  }

  /** A header checksum of 0xFFFF comes back as 0x0000. */
  lemma AllOnesIsNotRestored()
    ensures var b: Bytes := [0x45, 0, 0, 20, 0, 0, 0, 0, 64, 1, 255, 255, 10, 0, 0, 1, 10, 0, 0, 2];
      Rewrite(Rewrite(b, 12, [10, 0, 0, 3]), 12, b[12..16]) != b
  {
    var b: Bytes := [0x45, 0, 0, 20, 0, 0, 0, 0, 64, 1, 255, 255, 10, 0, 0, 1, 10, 0, 0, 2];
    RewriteThereAndBack(b, 12, [10, 0, 0, 3]);
  }

  lemma BackFields(b: Bytes, at: nat, ip: Bytes)
    requires IsIpv4(b) && (at == 12 || at == 16) && |ip| == 4
    ensures var c := Rewrite(b, at, ip);
      var d := Rewrite(c, at, b[at..at + 4]);
      && SameShape(b, d)
      && d[at..at + 4] == b[at..at + 4]
      && U16At(d, 10) == U16At(b, 10) as int % ONES
      && (Maintained(b) ==> U16At(d, TransportChecksumAt(b)) ==
                            if Maintained(c) then TransportChecksum(b) as int % ONES else 0)
      && (Maintained(b) && b[9] == TCP ==> Maintained(c))
      && (forall i :: 0 <= i < |b| && !Touched(b, at, i) ==> d[i] == b[i])
  {
    var c := Rewrite(b, at, ip);
    var was := b[at..at + 4];
    var us := AddressUpdates(was, ip);
    RewriteFields(b, at, ip);
    ShapeDecides(b, c);
    RewriteFields(c, at, was);
    assert AddressUpdates(ip, was) == Reversed(us);
    UpdateThereAndBack(U16At(b, 10), us);
    if Maintained(b) {
      UpdateThereAndBack(TransportChecksum(b), us);
    }
  }

  lemma RestoredIff(b: Bytes, d: Bytes, at: nat, kept: bool)
    requires IsIpv4(b) && SameShape(b, d) && (at == 12 || at == 16)
    requires d[at..at + 4] == b[at..at + 4] && U16At(d, 10) == U16At(b, 10) as int % ONES
    requires Maintained(b) && b[9] == TCP ==> kept
    requires Maintained(b) ==> U16At(d, TransportChecksumAt(b)) ==
                               if kept then TransportChecksum(b) as int % ONES else 0
    requires forall i :: 0 <= i < |b| && !Touched(b, at, i) ==> d[i] == b[i]
    ensures d == b <==> U16At(b, 10) != ONES && (Maintained(b) ==> TransportChecksum(b) != ONES && kept)
  {
    if U16At(b, 10) != ONES && (Maintained(b) ==> TransportChecksum(b) != ONES && kept) {
      assert Maintained(b) ==> U16At(d, TransportChecksumAt(b)) == TransportChecksum(b);
      RestoredBytes(b, d, at);
    } else if U16At(b, 10) != ONES {
      assert TransportChecksum(b) == ONES ==> TransportChecksum(b) as int % ONES == 0;
      assert U16At(d, TransportChecksumAt(b)) != TransportChecksum(b);
    }
  }

  lemma RestoredBytes(b: Bytes, d: Bytes, at: nat)
    requires IsIpv4(b) && SameShape(b, d) && (at == 12 || at == 16)
    requires d[at..at + 4] == b[at..at + 4] && U16At(d, 10) == U16At(b, 10)
    requires Maintained(b) ==> U16At(d, TransportChecksumAt(b)) == TransportChecksum(b)
    requires forall i :: 0 <= i < |b| && !Touched(b, at, i) ==> d[i] == b[i]
    ensures d == b
  {
    SameWord(b, d, 10);
    if Maintained(b) {
      SameWord(b, d, TransportChecksumAt(b));
    }
    forall i | 0 <= i < |b| ensures d[i] == b[i] {
      if at <= i < at + 4 {
        assert d[at..at + 4][i - at] == b[at..at + 4][i - at];
      }
    }
  }

  lemma SameWord(b: Bytes, d: Bytes, i: nat)
    requires i + 2 <= |b| == |d| && U16At(d, i) == U16At(b, i)
    ensures d[i] == b[i] && d[i + 1] == b[i + 1]
  {}
}
