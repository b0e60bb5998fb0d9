/** Checksums the offload code fills in: a whole pseudo-header sum, or a kernel partial completed. */
module TransportChecksums {
  import opened OnesComplement
  import opened Ipv4Packets

  /** RFC 768: a computed UDP zero goes on the wire as all ones. */
  function Substituted(proto: Byte, c: U16): U16 {
    if proto == UDP && c == 0 then ONES else c
  }

  /** `addresses` is source then destination; the checksum field of `transport` is zero. */
  function TransportChecksumOf(addresses: Bytes, proto: Byte, transport: Bytes): U16 {
    Substituted(proto, InternetChecksum(addresses + [0, proto] + BE16(|transport|) + transport))
  }

  /** Filling the field makes the segment verify at any receiver. */
  lemma FilledTransportVerifies(addresses: Bytes, proto: Byte, transport: Bytes, at: nat)
    requires |addresses| % 2 == 0 && at % 2 == 0 && at + 2 <= |transport| && U16At(transport, at) == 0
    ensures Verifies(addresses + [0, proto] + BE16(|transport|)
                     + PutU16(transport, at, TransportChecksumOf(addresses, proto, transport)))
  {
    var pseudo := addresses + [0, proto] + BE16(|transport|);
    var c := TransportChecksumOf(addresses, proto, transport);
    FilledVerifies(pseudo + transport, |pseudo| + at, c);
    assert PutU16(pseudo + transport, |pseudo| + at, c) == pseudo + PutU16(transport, at, c);
  }

  // ---- completing a deposited partial sum ----

  /** The layer-4 protocol of either IP version, zero when it cannot be read. */
  function IpProto(b: Bytes): Byte {
    if |b| > 9 && b[0] / 16 == 4 then b[9] else if |b| > 6 && b[0] / 16 == 6 then b[6] else 0
  }

  /** The packet after the partial at `start + offset` has been completed over `[start..]`. */
  function Completed(b: Bytes, start: nat, offset: nat): Bytes {
    var at := start + offset;
    if at + 2 > |b| then b
    else
      var zeroed := PutU16(b, at, 0);
      PutU16(b, at, Substituted(if IpProto(b) == UDP then UDP else TCP,
                                InternetChecksum(BE16(U16At(b, at)) + zeroed[start..])))
  }

  method GsoNoneChecksum(buf: array<Byte>, csumStart: U16, csumOffset: U16)
    modifies buf
    ensures buf[..] == Completed(old(buf[..]), csumStart, csumOffset)
  {
    var start, offset := csumStart as nat, csumOffset as nat;
    var at := start + offset;
    if at + 2 > buf.Length || start > buf.Length {
      return;
    }
    var isUdp := IpProto(buf[..]) == UDP;
    ghost var b := buf[..];
    var partial := U16At(buf[..], at);
    SetU16(buf, at, 0);
    var csum := InternetChecksum(BE16(partial) + buf[start..]);
    assert buf[start..] == PutU16(b, at, 0)[start..];
    csum := if isUdp && csum == 0 then ONES else csum;
    SetU16(buf, at, csum);
    PutTwice(b, at, 0, csum);
  }

  lemma PutTwice(b: Bytes, at: nat, v: U16, w: U16)
    requires at + 2 <= |b|
    ensures PutU16(PutU16(b, at, v), at, w) == PutU16(b, at, w)
  {}

  /** The folded sum of a pseudo-header, as the kernel leaves it in the checksum field. */
  function Partial(addresses: Bytes, proto: Byte, length: nat): U16 {
    Fold(WordSum(addresses + [0, proto] + BE16(length)))
  }

  lemma FoldDetermined(a: nat, b: nat)
    requires a % ONES == b % ONES && (a == 0 <==> b == 0)
    ensures Fold(a) == Fold(b)
  {
    FoldCongruent(a);
    FoldCongruent(b);
  }

  lemma FoldAbsorbs(x: nat, y: nat)
    ensures Fold(Fold(y) + x) == Fold(y + x)
  {
    FoldCongruent(y);
    CongruentDifference(Fold(y), y);
    ModAddMultiple(y + x, (Fold(y) as int - y as int) / ONES);
    FoldDetermined(Fold(y) + x, y + x);
  }

  /** Completing the deposited partial gives the very checksum of the full pseudo-header sum. */
  lemma CompletedIsFullChecksum(b: Bytes, offset: nat)
    requires WellFormedHeader(b) && b[0] / 16 == 4 && HeaderLen(b) + offset + 2 <= |b|
    requires U16At(b, HeaderLen(b) + offset) == Partial(b[12..20], b[9], |b| - HeaderLen(b))
    requires b[9] == UDP || b[9] == TCP
    ensures Completed(b, HeaderLen(b), offset) ==
            PutU16(b, HeaderLen(b) + offset,
                   TransportChecksumOf(b[12..20], b[9], PutU16(b, HeaderLen(b) + offset, 0)[HeaderLen(b)..]))
  {
    var h := HeaderLen(b);
    var transport := PutU16(b, h + offset, 0)[h..];
    PartialStandsFor(U16At(b, h + offset), b[12..20] + [0, b[9]] + BE16(|b| - h), transport);
  }

  /** Over either IP version a completed UDP checksum is never the zero that means there is none. */
  lemma CompletedUdpIsChecked(b: Bytes, start: nat, offset: nat)
    requires start + offset + 2 <= |b| && |b| > 9
    requires (b[0] / 16 == 4 && b[9] == 17) || (b[0] / 16 == 6 && b[6] == 17)
    ensures U16At(Completed(b, start, offset), start + offset) != 0
  {}

  lemma PartialStandsFor(partial: U16, pseudo: Bytes, transport: Bytes)
    requires |pseudo| % 2 == 0 && partial == Fold(WordSum(pseudo))
    ensures InternetChecksum(BE16(partial) + transport) == InternetChecksum(pseudo + transport)
  {
    WordSumAppend(BE16(partial), transport);
    SumOfBE16(partial);
    WordSumAppend(pseudo, transport);
    FoldAbsorbs(WordSum(transport), WordSum(pseudo));
  }
}

/** Splitting a superpacket into wire packets. */
module Segmentation {
  import opened OnesComplement
  import opened Buffers
  import opened Ipv4Packets
  import opened TransportChecksums
  import opened Wrappers

  datatype VirtioNetHdr = VirtioNetHdr(gsoType: Byte, gsoSize: U16, csumStart: U16)

  datatype HdrError = Empty | Truncated | UnsupportedIpVersion | BadIpv4Ihl | BadTcpDataOffset | UnsupportedL4Proto

  /** `SlicePanics` is the out-of-range slice on a checksum start beyond the segment. */
  datatype SegError = Ipv4 | Tcp | Udp | SlicePanics

  /** The ECN bit is masked off before the type is compared. */
  predicate IsTcp(hdr: VirtioNetHdr) {
    hdr.gsoType % 128 == 1 || hdr.gsoType % 128 == 4
  }

  function CalcHdrLen(pkt: Bytes): (r: Result<nat, HdrError>)
    ensures r.Ok? ==> WellFormedHeader(pkt) && pkt[0] / 16 == 4 && (pkt[9] == TCP || pkt[9] == UDP)
    ensures r.Ok? ==> r.value >= HeaderLen(pkt) + MinTransport(pkt[9])
  {
    if pkt == [] then Err(Empty)
    else if pkt[0] / 16 != 4 then Err(UnsupportedIpVersion)
    else if |pkt| < 20 then Err(Truncated)
    else if HeaderLen(pkt) < 20 then Err(BadIpv4Ihl)
    else if |pkt| < HeaderLen(pkt) then Err(Truncated)
    else if pkt[9] == TCP then
      if |pkt| - HeaderLen(pkt) < 20 then Err(Truncated)
      else
        var doff := pkt[HeaderLen(pkt) + 12] / 16 * 4;
        if doff < 20 then Err(BadTcpDataOffset) else Ok(HeaderLen(pkt) + doff)
    else if pkt[9] == UDP then Ok(HeaderLen(pkt) + 8)
    else Err(UnsupportedL4Proto)
  }

  /** An IPv4 header and the transport header it announces, each as long as it says. */
  predicate Headers(ip: Bytes, l4: Bytes) {
    && 20 <= |ip| && ip[0] / 16 == 4 && ip[0] % 16 * 4 == |ip|
    && (|| (ip[9] == TCP && 20 <= |l4| && l4[12] / 16 * 4 == |l4|)
        || (ip[9] == UDP && |l4| == 8))
  }

  /** Whatever the payload, the header length is that of the two headers, TCP options and all. */
  lemma HeaderLengthFromParts(ip: Bytes, l4: Bytes, payload: Bytes)
    requires Headers(ip, l4)
    ensures CalcHdrLen(ip + l4 + payload) == Ok(|ip| + |l4|)
  {
    var pkt := ip + l4 + payload;
    assert pkt[0] == ip[0] && pkt[9] == ip[9];
    if ip[9] == TCP {
      assert pkt[|ip| + 12] == l4[12];
    }
  }

  /** And a header length within the packet is found exactly when the packet begins with two such headers. */
  lemma HeaderLengthIff(pkt: Bytes, n: nat)
    requires n <= |pkt|
    ensures CalcHdrLen(pkt) == Ok(n) <==> exists h :: 0 <= h <= n && Headers(pkt[..h], pkt[h..n])
  {
    if CalcHdrLen(pkt) == Ok(n) {
      var h := HeaderLen(pkt);
      assert pkt[..h][0] == pkt[0] && pkt[..h][9] == pkt[9];
      assert Headers(pkt[..h], pkt[h..n]);
    }
    forall h | 0 <= h <= n && Headers(pkt[..h], pkt[h..n]) ensures CalcHdrLen(pkt) == Ok(n) {
      HeaderLengthFromParts(pkt[..h], pkt[h..n], pkt[n..]);
      assert pkt[..h] + pkt[h..n] + pkt[n..] == pkt;
    }
  }

  function CalcGsoSegs(pktLen: nat, hdrLen: nat, gsoSize: nat): nat {
    if gsoSize == 0 || pktLen <= hdrLen then 0 else (pktLen - hdrLen + gsoSize - 1) / gsoSize
  }

  function PutU32(b: Bytes, i: nat, v: nat): Bytes
    requires i + 4 <= |b|
  {
    PutU16(PutU16(b, i, v / 0x1_0000), i + 2, v % 0x1_0000)
  }

  predicate Fin(flags: Byte) { flags % 2 == 1 }
  predicate Psh(flags: Byte) { flags / 8 % 2 == 1 }

  /** `flags & !(FIN | PSH)`. */
  function WithoutFinPsh(flags: Byte): (f: Byte)
    ensures !Fin(f) && !Psh(f) && f / 16 == flags / 16 && f / 2 % 4 == flags / 2 % 4
  {
    flags / 16 * 16 + flags / 2 % 4 * 2
  }

  // ---- one segment ----

  /** `idx * gsoSize`, unrolled so that offsets advance by a constant. */
  function Times(idx: nat, gsoSize: nat): nat {
    if idx == 0 then 0 else Times(idx - 1, gsoSize) + gsoSize
  }

  lemma {:induction false} TimesIsProduct(idx: nat, gsoSize: nat)
    ensures Times(idx, gsoSize) == idx * gsoSize
  {
    if idx > 0 {
      TimesIsProduct(idx - 1, gsoSize);
    }
  }

  function SegStart(hdrLen: nat, gsoSize: nat, idx: nat): nat {
    hdrLen + Times(idx, gsoSize)
  }

  function SegEnd(hdrLen: nat, gsoSize: nat, idx: nat, pktLen: nat): (e: nat)
    ensures var start := SegStart(hdrLen, gsoSize, idx);
        start <= pktLen ==> start <= e <= pktLen && e <= start + gsoSize
  {
    if SegStart(hdrLen, gsoSize, idx) + gsoSize < pktLen then SegStart(hdrLen, gsoSize, idx) + gsoSize else pktLen
  }

  function SegLen(hdrLen: nat, gsoSize: nat, idx: nat, pktLen: nat): (n: nat)
    requires SegStart(hdrLen, gsoSize, idx) <= pktLen
    ensures n <= gsoSize
  {
    SegEnd(hdrLen, gsoSize, idx, pktLen) - SegStart(hdrLen, gsoSize, idx)
  }

  lemma HeaderFilled(zeroed: Bytes, h: nat)
    requires 20 <= h <= |zeroed| && U16At(zeroed, 10) == 0
    ensures Verifies(PutU16(zeroed, 10, InternetChecksum(zeroed[0..h]))[0..h])
  {
    var csum := InternetChecksum(zeroed[0..h]);
    assert PutU16(zeroed, 10, csum)[0..h] == PutU16(zeroed[0..h], 10, csum);
    FilledVerifies(zeroed[0..h], 10, csum);
  }

  /** First sequence number of segment `idx`; every wrapping step is one reduction modulo 2^32. */
  function SegSeq(firstSeq: nat, gsoSize: nat, idx: nat): (n: nat)
    ensures n < 0x1_0000_0000
  {
    (firstSeq + Times(idx, gsoSize)) % 0x1_0000_0000
  }

  function SegId(id: U16, idx: nat): (r: U16)
    ensures r == (id as nat + idx) % 0x1_0000
  {
    if idx > 0 then (id as nat + idx % 0x1_0000) % 0x1_0000 else id
  }

  /** The header with its id and length in place and its checksum field zeroed. */
  function ZeroedHeader(template: Bytes, id: U16): (r: Bytes)
    requires 20 <= |template|
    ensures |r| == |template|
    ensures U16At(r, 2) == |template| % 0x1_0000 && U16At(r, 4) == id && U16At(r, 10) == 0
    ensures forall i :: 0 <= i < |r| && !(2 <= i < 6) && !(10 <= i < 12) ==> r[i] == template[i]
  {
    PutU16(PutU16(PutU16(template, 4, id), 2, |template| % 0x1_0000), 10, 0)
  }

  /** The IP-layer fixups on the header template in `out`. */
  method FixIpHeader(out: Buffer, idx: nat, csumStart: nat)
    requires 20 <= csumStart <= |out.data|
    modifies out
    ensures var template := old(out.data);
      && |out.data| == |template|
      && U16At(out.data, 2) == |template| % 0x1_0000
      && U16At(out.data, 4) == (U16At(template, 4) as nat + idx) % 0x1_0000
      && (forall i :: 0 <= i < |template| && !(2 <= i < 6) && !(10 <= i < 12) ==> out.data[i] == template[i])
      && (HeaderLen(template) == csumStart ==> Verifies(out.data[0..csumStart]))
  {
    var zeroed := ZeroedHeader(out.data, SegId(U16At(out.data, 4), idx));
    var ihl := HeaderLen(zeroed);
    var length := if ihl < 20 then 20 else if ihl > csumStart then csumStart else ihl;
    var csum := InternetChecksum(zeroed[0..length]);
    out.data := PutU16(zeroed, 10, csum);
    PutU16Frame(zeroed, 10, csum);
    if HeaderLen(zeroed) == csumStart {
      HeaderFilled(zeroed, csumStart);
    }
  }

  /** Sequence number and flags of one TCP segment, checksum field zeroed. */
  function TcpFields(t: Bytes, seqNo: nat, isLast: bool): (r: Bytes)
    requires |t| >= 20 && seqNo < 0x1_0000_0000
    ensures |r| == |t| && U32At(r, 4) == seqNo && U16At(r, 16) == 0
    ensures r[13] == if isLast then t[13] else WithoutFinPsh(t[13])
    ensures forall i :: 0 <= i < |t| && !(4 <= i < 8) && i != 13 && !(16 <= i < 18) ==> r[i] == t[i]
  {
    var sequenced := PutU32(t, 4, seqNo);
    var flagged := if isLast then sequenced else sequenced[13 := WithoutFinPsh(sequenced[13])];
    PutU16(flagged, 16, 0)
  }

  /** Length of one UDP segment, checksum field zeroed. */
  function UdpFields(t: Bytes): (r: Bytes)
    requires |t| >= 8
    ensures |r| == |t| && U16At(r, 4) == |t| % 0x1_0000 && U16At(r, 6) == 0
    ensures forall i :: 0 <= i < |t| && !(4 <= i < 8) ==> r[i] == t[i]
  {
    PutU16(PutU16(t, 4, |t| % 0x1_0000), 6, 0)
  }

  function FilledTransport(addresses: Bytes, proto: Byte, fields: Bytes): (r: Bytes)
    requires |addresses| % 2 == 0 && |fields| >= MinTransport(proto)
    requires U16At(fields, ChecksumOffset(proto)) == 0
    ensures |r| == |fields|
    ensures forall i :: 0 <= i < |r| && !(ChecksumOffset(proto) <= i < ChecksumOffset(proto) + 2) ==> r[i] == fields[i]
    ensures Verifies(addresses + [0, proto] + BE16(|r|) + r)
    ensures proto == UDP ==> U16At(r, 6) != 0
  {
    FilledTransportVerifies(addresses, proto, fields, ChecksumOffset(proto));
    PutU16(fields, ChecksumOffset(proto), TransportChecksumOf(addresses, proto, fields))
  }

  /** The transport-layer fixups, over `[csumStart..]` of what is in `out`. */
  method FixTransport(hdr: VirtioNetHdr, out: Buffer, firstSeq: nat, idx: nat, isLast: bool)
    returns (r: Result<(), SegError>)
    requires 20 <= hdr.csumStart as nat <= |out.data| && firstSeq < 0x1_0000_0000
    modifies out
    ensures r.Err? <==> |old(out.data)| - hdr.csumStart < MinTransport(if IsTcp(hdr) then TCP else UDP)
    ensures r.Err? ==> r.error == if IsTcp(hdr) then Tcp else Udp
    ensures r.Ok? ==>
              var headed := old(out.data);
              && |out.data| == |headed|
              && out.data[..hdr.csumStart] == headed[..hdr.csumStart]
              && Verifies(headed[12..20] + [0, if IsTcp(hdr) then TCP else UDP] + BE16(|headed| - hdr.csumStart)
                          + out.data[hdr.csumStart..])
    ensures r.Ok? && IsTcp(hdr) ==>
              TcpSegment(old(out.data)[hdr.csumStart..], out.data[hdr.csumStart..],
                         SegSeq(firstSeq, hdr.gsoSize, idx), isLast)
    ensures r.Ok? && !IsTcp(hdr) ==> UdpSegment(old(out.data)[hdr.csumStart..], out.data[hdr.csumStart..])
  {
    var cs, headed := hdr.csumStart as nat, out.data;
    var fixed;
    if IsTcp(hdr) {
      if |headed| - cs < 20 {
        return Err(Tcp);
      }
      var fields := TcpFields(headed[cs..], SegSeq(firstSeq, hdr.gsoSize, idx), isLast);
      fixed := FilledTransport(headed[12..20], TCP, fields);
    } else {
      if |headed| - cs < 8 {
        return Err(Udp);
      }
      fixed := FilledTransport(headed[12..20], UDP, UdpFields(headed[cs..]));
    }
    out.data := headed[..cs] + fixed;
    assert out.data[cs..] == fixed && out.data[..cs] == headed[..cs];
    return Ok(());
  }

  /** `out` is the TCP segment `t` renumbered, with FIN and PSH kept on the last one only. */
  predicate TcpSegment(t: Bytes, out: Bytes, seqNo: nat, isLast: bool) {
    && |out| == |t| >= 20
    && U32At(out, 4) == seqNo
    && out[13] == (if isLast then t[13] else WithoutFinPsh(t[13]))
    && forall i :: 0 <= i < |t| && !(4 <= i < 8) && i != 13 && !(16 <= i < 18) ==> out[i] == t[i]
  }

  predicate UdpSegment(t: Bytes, out: Bytes) {
    && |out| == |t| >= 8
    && U16At(out, 4) == |t| % 0x1_0000 && U16At(out, 6) != 0
    && forall i :: 0 <= i < |t| && !(4 <= i < 8) ==> out[i] == t[i]
  }

  /** The kernel's metadata describes this very packet. */
  predicate Honest(hdr: VirtioNetHdr, pkt: Bytes)
    requires IsIpv4(pkt)
  {
    hdr.csumStart as nat == HeaderLen(pkt) && (IsTcp(hdr) <==> pkt[9] == TCP)
  }

  /** `headed` has the template's IP header with its own id and length and a checksum that verifies. */
  predicate IpSegment(template: Bytes, out: Bytes, idx: nat, h: nat)
    requires 20 <= h <= |template| == |out|
  {
    && U16At(out, 2) == |out| % 0x1_0000
    && U16At(out, 4) == (U16At(template, 4) as nat + idx) % 0x1_0000
    && Verifies(out[0..h])
    && forall i :: 0 <= i < h && !(2 <= i < 6) && !(10 <= i < 12) ==> out[i] == template[i]
  }

  function Template(hdrLen: nat, pkt: Bytes, lo: nat, hi: nat): Bytes
    requires hdrLen <= |pkt| && lo <= hi <= |pkt|
  {
    pkt[..hdrLen] + pkt[lo..hi]
  }

  /** Everything promised of segment `idx`, whose payload is `pkt[lo..hi]`. */
  predicate IsSegment(hdr: VirtioNetHdr, hdrLen: nat, pkt: Bytes, idx: nat, lo: nat, hi: nat, out: Bytes)
    requires CalcHdrLen(pkt) == Ok(hdrLen) && hdrLen <= lo <= hi <= |pkt|
  {
    var h, template := HeaderLen(pkt), Template(hdrLen, pkt, lo, hi);
    && |out| == |template|
    && IpSegment(template, out, idx, h)
    && Verifies(out[12..20] + [0, pkt[9]] + BE16(|out| - h) + out[h..])
    && (if pkt[9] == TCP
        then TcpSegment(template[h..], out[h..], SegSeq(U32At(pkt, h + 4), hdr.gsoSize, idx), hi == |pkt|)
        else UdpSegment(template[h..], out[h..]))
  }

  /** Why a segment of payload length `n` cannot be built: the claimed transport header does not fit. */
  function SegFailure(hdr: VirtioNetHdr, hdrLen: nat, n: nat): Option<SegError> {
    if hdr.csumStart as nat > hdrLen + n then Some(SlicePanics)
    else if hdr.csumStart < 20 then Some(Ipv4)
    else if hdrLen + n - hdr.csumStart as int >= MinTransport(if IsTcp(hdr) then TCP else UDP) then None
    else Some(if IsTcp(hdr) then Tcp else Udp)
  }

  /** Builds segment `idx` in the one buffer that all segments share. */
  method BuildSegment(hdr: VirtioNetHdr, hdrLen: nat, pkt: Bytes, idx: nat, out: Buffer)
    returns (r: Result<(), SegError>)
    requires CalcHdrLen(pkt) == Ok(hdrLen)
    requires SegStart(hdrLen, hdr.gsoSize, idx) <= |pkt|
    modifies out
    ensures match SegFailure(hdr, hdrLen, SegLen(hdrLen, hdr.gsoSize, idx, |pkt|))
            case Some(e) => r == Err(e)
            case None => r.Ok? && |out.data| == hdrLen + SegLen(hdrLen, hdr.gsoSize, idx, |pkt|)
    ensures Honest(hdr, pkt) ==>
              && r.Ok?
              && IsSegment(hdr, hdrLen, pkt, idx, SegStart(hdrLen, hdr.gsoSize, idx),
                           SegEnd(hdrLen, hdr.gsoSize, idx, |pkt|), out.data)
  {
    TimesIsProduct(idx, hdr.gsoSize);
    var segStart := hdrLen + idx * hdr.gsoSize as nat;
    var segEnd := if segStart + hdr.gsoSize as nat < |pkt| then segStart + hdr.gsoSize as nat else |pkt|;
    r := BuildFrom(hdr, hdrLen, pkt, idx, segStart, segEnd, out);
  }

  method BuildFrom(hdr: VirtioNetHdr, hdrLen: nat, pkt: Bytes, idx: nat, lo: nat, hi: nat, out: Buffer)
    returns (r: Result<(), SegError>)
    requires CalcHdrLen(pkt) == Ok(hdrLen) && hdrLen <= lo <= hi <= |pkt|
    modifies out
    ensures match SegFailure(hdr, hdrLen, hi - lo)
            case Some(e) => r == Err(e)
            case None => r.Ok? && |out.data| == hdrLen + hi - lo
    ensures Honest(hdr, pkt) ==> r.Ok? && IsSegment(hdr, hdrLen, pkt, idx, lo, hi, out.data)
  {
    out.data := Template(hdrLen, pkt, lo, hi);
    if hdr.csumStart as nat > |out.data| {
      return Err(SlicePanics);
    }
    if hdr.csumStart < 20 {
      return Err(Ipv4);
    }
    FixIpHeader(out, idx, hdr.csumStart);
    ghost var headed := out.data;
    if IsTcp(hdr) && hdr.csumStart as nat + 8 > |pkt| {
      return Err(Tcp);
    }
    var firstSeq := if IsTcp(hdr) then U32At(pkt, hdr.csumStart as nat + 4) else 0;
    r := FixTransport(hdr, out, firstSeq, idx, hi == |pkt|);
    if Honest(hdr, pkt) {
      assert headed[hdr.csumStart..] == Template(hdrLen, pkt, lo, hi)[hdr.csumStart..];
      TemplateHeaderLen(hdrLen, pkt, lo, hi);
      SegmentFrame(pkt, hdrLen, lo, hi, headed, out.data, idx);
    }
  }

  lemma TemplateHeaderLen(hdrLen: nat, pkt: Bytes, lo: nat, hi: nat)
    requires CalcHdrLen(pkt) == Ok(hdrLen) && hdrLen <= lo <= hi <= |pkt|
    ensures HeaderLen(Template(hdrLen, pkt, lo, hi)) == HeaderLen(pkt)
  {}

  lemma SegmentFrame(pkt: Bytes, hdrLen: nat, lo: nat, hi: nat, headed: Bytes, out: Bytes, idx: nat)
    requires CalcHdrLen(pkt) == Ok(hdrLen) && hdrLen <= lo <= hi <= |pkt|
    requires var template, h := Template(hdrLen, pkt, lo, hi), HeaderLen(pkt);
      && |headed| == |template| == |out|
      && IpSegment(template, headed, idx, h)
      && out[..h] == headed[..h]
    ensures var template, h := Template(hdrLen, pkt, lo, hi), HeaderLen(pkt);
      && IpSegment(template, out, idx, h)
      && out[12..20] == headed[12..20]
  {}

  // ---- the whole superpacket ----

  lemma CeilBounds(payload: nat, g: nat, i: nat)
    requires g > 0 && payload > 0
    ensures i < (payload + g - 1) / g <==> Times(i, g) < payload
  {
    var n := (payload + g - 1) / g;
    TimesIsProduct(i, g);
    TimesIsProduct(i + 1, g);
    QuotientBounds(payload + g - 1, g);
    if i < n {
      ProductMonotone(i + 1, n, g);
    } else {
      ProductMonotone(n, i, g);
    }
  }

  lemma QuotientBounds(a: nat, g: nat)
    requires g > 0
    ensures a / g * g <= a < a / g * g + g
  {}

  lemma ProductMonotone(x: nat, y: nat, g: nat)
    requires x <= y
    ensures x * g <= y * g
  {}

  function Payloads(hdrLen: nat, segs: seq<Bytes>): seq<Bytes>
    requires forall i :: 0 <= i < |segs| ==> hdrLen <= |segs[i]|
  {
    seq(|segs|, i requires 0 <= i < |segs| => segs[i][hdrLen..])
  }

  /** Only header bytes change: the payload is carried over as it is. */
  lemma PayloadKept(hdr: VirtioNetHdr, hdrLen: nat, pkt: Bytes, idx: nat, lo: nat, hi: nat, out: Bytes)
    requires CalcHdrLen(pkt) == Ok(hdrLen) && hdrLen <= lo <= hi <= |pkt|
    requires IsSegment(hdr, hdrLen, pkt, idx, lo, hi, out)
    ensures out[hdrLen..] == pkt[lo..hi]
  {
    var h, template := HeaderLen(pkt), Template(hdrLen, pkt, lo, hi);
    forall i | hdrLen <= i < |out| ensures out[i] == template[i] {
      assert out[h..][i - h] == template[h..][i - h];
    }
  }

  /** `seg` is segment `i` of the superpacket. */
  ghost predicate SegmentAt(hdr: VirtioNetHdr, hdrLen: nat, pkt: Bytes, i: nat, seg: Bytes)
    requires CalcHdrLen(pkt) == Ok(hdrLen)
  {
    var lo, hi := SegStart(hdrLen, hdr.gsoSize, i), SegEnd(hdrLen, hdr.gsoSize, i, |pkt|);
    lo < hi <= |pkt| && IsSegment(hdr, hdrLen, pkt, i, lo, hi, seg)
  }

  ghost predicate SegmentsUpTo(hdr: VirtioNetHdr, hdrLen: nat, pkt: Bytes, segs: seq<Bytes>)
    requires CalcHdrLen(pkt) == Ok(hdrLen)
  {
    forall i :: 0 <= i < |segs| ==> SegmentAt(hdr, hdrLen, pkt, i, segs[i])
  }

  lemma IsSegmentAt(hdr: VirtioNetHdr, hdrLen: nat, pkt: Bytes, i: nat, seg: Bytes)
    requires CalcHdrLen(pkt) == Ok(hdrLen) && hdr.gsoSize > 0 && SegStart(hdrLen, hdr.gsoSize, i) < |pkt|
    requires IsSegment(hdr, hdrLen, pkt, i, SegStart(hdrLen, hdr.gsoSize, i),
                       SegEnd(hdrLen, hdr.gsoSize, i, |pkt|), seg)
    ensures SegmentAt(hdr, hdrLen, pkt, i, seg)
  {}

  lemma SegmentsExtend(hdr: VirtioNetHdr, hdrLen: nat, pkt: Bytes, segs: seq<Bytes>, seg: Bytes)
    requires CalcHdrLen(pkt) == Ok(hdrLen)
    requires SegmentsUpTo(hdr, hdrLen, pkt, segs) && SegmentAt(hdr, hdrLen, pkt, |segs|, seg)
    ensures SegmentsUpTo(hdr, hdrLen, pkt, segs + [seg])
  {}

  datatype GsoOutcome =
    | Sent(segs: seq<Bytes>)
    | BadHeader(e: HdrError)
    | ZeroGsoSize
    | Oversized
    | BuildFailed(b: SegError)

  /** Why a superpacket of `pktLen` bytes is given up: the first segment from `i` on that cannot be built. */
  function FirstFailure(hdr: VirtioNetHdr, hdrLen: nat, pktLen: nat, i: nat): Option<SegError>
    requires hdr.gsoSize > 0
    decreases pktLen - Times(i, hdr.gsoSize)
  {
    if SegStart(hdrLen, hdr.gsoSize, i) >= pktLen then None
    else
      var failure := SegFailure(hdr, hdrLen, SegLen(hdrLen, hdr.gsoSize, i, pktLen));
      if failure.Some? then failure else FirstFailure(hdr, hdrLen, pktLen, i + 1)
  }

  /** Every segment has its share of the payload behind a whole header, and fits. */
  predicate Sized(hdr: VirtioNetHdr, hdrLen: nat, pktLen: nat, segs: seq<Bytes>, mtu: nat) {
    forall i :: 0 <= i < |segs| ==>
      && SegStart(hdrLen, hdr.gsoSize, i) <= pktLen
      && |segs[i]| == hdrLen + SegLen(hdrLen, hdr.gsoSize, i, pktLen) <= mtu
  }

  method SendSuperpacket(hdr: VirtioNetHdr, pkt: Bytes, mtu: nat) returns (r: GsoOutcome)
    ensures r.BadHeader? <==> CalcHdrLen(pkt).Err?
    ensures CalcHdrLen(pkt).Ok? ==>
              var hdrLen := CalcHdrLen(pkt).value;
              && (r == ZeroGsoSize <==> hdr.gsoSize == 0)
              && (r == Oversized <==> hdr.gsoSize != 0 && |pkt| > hdrLen && hdrLen + hdr.gsoSize as nat > mtu)
              && (r.BuildFailed? || r.Sent? ==>
                    match FirstFailure(hdr, hdrLen, |pkt|, 0)
                    case Some(e) => r == BuildFailed(e)
                    case None => r.Sent?)
              && (r.BuildFailed? ==> !Honest(hdr, pkt))
    ensures r.Sent? ==>
              var hdrLen := CalcHdrLen(pkt).value;
              && |r.segs| == CalcGsoSegs(|pkt|, hdrLen, hdr.gsoSize)
              && AllBuilt(hdr, hdrLen, pkt, r.segs, mtu)
  {
    var parsed := CalcHdrLen(pkt);
    if parsed.Err? {
      return BadHeader(parsed.error);
    }
    var hdrLen := parsed.value;
    if hdr.gsoSize == 0 {
      return ZeroGsoSize;
    }
    var n := CalcGsoSegs(|pkt|, hdrLen, hdr.gsoSize);
    if n == 0 {
      if |pkt| > hdrLen {
        CeilBounds(|pkt| - hdrLen, hdr.gsoSize, 0);
      }
      return Sent([]);
    }
    if hdrLen + hdr.gsoSize as nat > mtu {
      return Oversized;
    }
    r := SendSegments(hdr, hdrLen, pkt, n, mtu);
  }

  method SendSegments(hdr: VirtioNetHdr, hdrLen: nat, pkt: Bytes, n: nat, mtu: nat) returns (r: GsoOutcome)
    requires CalcHdrLen(pkt) == Ok(hdrLen) && hdr.gsoSize > 0 && hdrLen + hdr.gsoSize as nat <= mtu
    requires 0 < n == CalcGsoSegs(|pkt|, hdrLen, hdr.gsoSize)
    ensures match FirstFailure(hdr, hdrLen, |pkt|, 0)
            case Some(e) => r == BuildFailed(e) && !Honest(hdr, pkt)
            case None => r.Sent?
    ensures r.Sent? ==> |r.segs| == n && AllBuilt(hdr, hdrLen, pkt, r.segs, mtu)
  {
    var segment := new Buffer([]);
    var segs := [];
    for i := 0 to n
      invariant |segs| == i && AllBuilt(hdr, hdrLen, pkt, segs, mtu)
      invariant FirstFailure(hdr, hdrLen, |pkt|, i) == FirstFailure(hdr, hdrLen, |pkt|, 0)
    {
      CeilBounds(|pkt| - hdrLen, hdr.gsoSize, i);
      var built := BuildSegment(hdr, hdrLen, pkt, i, segment);
      FailureFrom(hdr, hdrLen, |pkt|, i);
      if built.Err? {
        return BuildFailed(built.error);
      }
      OneMoreBuilt(hdr, hdrLen, pkt, segs, segment.data, mtu);
      segs := segs + [segment.data];
    }
    CeilBounds(|pkt| - hdrLen, hdr.gsoSize, n);
    return Sent(segs);
  }

  /** The claimed transport header fits into a segment of that size. */
  predicate Buildable(hdr: VirtioNetHdr, size: int) {
    && 20 <= hdr.csumStart
    && hdr.csumStart as int + (if hdr.gsoType % 128 == 1 || hdr.gsoType % 128 == 4 then 20 else 8) <= size
  }

  lemma BuildableIff(hdr: VirtioNetHdr, hdrLen: nat, n: nat)
    ensures SegFailure(hdr, hdrLen, n).None? <==> Buildable(hdr, hdrLen + n)
  {}

  /** Every segment can be built exactly when the last, the smallest, can: its header as claimed must fit. */
  lemma {:induction false} AllBuildableIff(hdr: VirtioNetHdr, hdrLen: nat, pktLen: nat, i: nat, last: nat)
    requires hdr.gsoSize > 0 && i <= last
    requires SegStart(hdrLen, hdr.gsoSize, last) < pktLen <= SegStart(hdrLen, hdr.gsoSize, last + 1)
    ensures FirstFailure(hdr, hdrLen, pktLen, i).None? <==>
            Buildable(hdr, hdrLen + pktLen - SegStart(hdrLen, hdr.gsoSize, last))
    decreases last - i
  {
    var g := hdr.gsoSize as nat;
    StartsGrow(g, i, last);
    FailureFrom(hdr, hdrLen, pktLen, i);
    BuildableIff(hdr, hdrLen, SegLen(hdrLen, hdr.gsoSize, i, pktLen));
    if i < last {
      AllBuildableIff(hdr, hdrLen, pktLen, i + 1, last);
    }
  }

  lemma {:induction false} StartsGrow(g: nat, i: nat, j: nat)
    requires i <= j
    ensures Times(i, g) <= Times(j, g) && (i < j ==> Times(i, g) + g <= Times(j, g))
    decreases j
  {
    if i < j {
      StartsGrow(g, i, j - 1);
    }
  }

  lemma FailureFrom(hdr: VirtioNetHdr, hdrLen: nat, pktLen: nat, i: nat)
    requires hdr.gsoSize > 0 && SegStart(hdrLen, hdr.gsoSize, i) < pktLen
    ensures var failure := SegFailure(hdr, hdrLen, SegLen(hdrLen, hdr.gsoSize, i, pktLen));
      FirstFailure(hdr, hdrLen, pktLen, i)
      == if failure.Some? then failure else FirstFailure(hdr, hdrLen, pktLen, i + 1)
  {}

  /** What is sent: segments of the right sizes, and the very segments when the metadata is honest. */
  ghost predicate AllBuilt(hdr: VirtioNetHdr, hdrLen: nat, pkt: Bytes, segs: seq<Bytes>, mtu: nat)
    requires CalcHdrLen(pkt) == Ok(hdrLen)
  {
    Sized(hdr, hdrLen, |pkt|, segs, mtu) && (Honest(hdr, pkt) ==> SegmentsUpTo(hdr, hdrLen, pkt, segs))
  }

  lemma OneMoreBuilt(hdr: VirtioNetHdr, hdrLen: nat, pkt: Bytes, segs: seq<Bytes>, seg: Bytes, mtu: nat)
    requires CalcHdrLen(pkt) == Ok(hdrLen) && hdr.gsoSize > 0 && hdrLen + hdr.gsoSize as nat <= mtu
    requires AllBuilt(hdr, hdrLen, pkt, segs, mtu) && SegStart(hdrLen, hdr.gsoSize, |segs|) < |pkt|
    requires |seg| == hdrLen + SegLen(hdrLen, hdr.gsoSize, |segs|, |pkt|)
    requires Honest(hdr, pkt) ==>
               IsSegment(hdr, hdrLen, pkt, |segs|, SegStart(hdrLen, hdr.gsoSize, |segs|),
                         SegEnd(hdrLen, hdr.gsoSize, |segs|, |pkt|), seg)
    ensures AllBuilt(hdr, hdrLen, pkt, segs + [seg], mtu)
  {
    SizedExtend(hdr, hdrLen, |pkt|, segs, seg, mtu);
    if Honest(hdr, pkt) {
      IsSegmentAt(hdr, hdrLen, pkt, |segs|, seg);
      SegmentsExtend(hdr, hdrLen, pkt, segs, seg);
    }
  }

  lemma SizedExtend(hdr: VirtioNetHdr, hdrLen: nat, pktLen: nat, segs: seq<Bytes>, seg: Bytes, mtu: nat)
    requires Sized(hdr, hdrLen, pktLen, segs, mtu) && SegStart(hdrLen, hdr.gsoSize, |segs|) <= pktLen
    requires |seg| == hdrLen + SegLen(hdrLen, hdr.gsoSize, |segs|, pktLen) <= mtu
    ensures Sized(hdr, hdrLen, pktLen, segs + [seg], mtu)
  {}

  /**
   The payloads of all the segments concatenate to the payload of the superpacket; every one but
   the last has exactly `gso_size` bytes, and the last has between one and `gso_size`.
   */
  lemma SegmentsCoverPayload(hdr: VirtioNetHdr, hdrLen: nat, pkt: Bytes, segs: seq<Bytes>)
    requires CalcHdrLen(pkt) == Ok(hdrLen) && hdr.gsoSize != 0 && hdrLen < |pkt|
    requires |segs| == CalcGsoSegs(|pkt|, hdrLen, hdr.gsoSize) && SegmentsUpTo(hdr, hdrLen, pkt, segs)
    ensures forall i :: 0 <= i < |segs| ==> hdrLen <= |segs[i]|
    ensures var ps := Payloads(hdrLen, segs);
      && Concat(ps) == pkt[hdrLen..]
      && forall i :: 0 <= i < |ps| ==>
           0 < |ps[i]| <= hdr.gsoSize as nat && (i < |ps| - 1 ==> |ps[i]| == hdr.gsoSize as nat)
  {
    PiecesOf(hdr, hdrLen, pkt, segs);
    CoverSizes(hdrLen, hdr.gsoSize, pkt, Payloads(hdrLen, segs));
    ConcatPieces(hdrLen, hdr.gsoSize, pkt, Payloads(hdrLen, segs));
  }

  /** A segment begins with the two headers, except for the fields that are its own. */
  predicate KeepsHeaders(ip: Bytes, l4: Bytes, seg: Bytes)
    requires 20 <= |ip|
  {
    && |ip| + |l4| <= |seg|
    && (forall i :: 0 <= i < |ip| && !(2 <= i < 6) && !(10 <= i < 12) ==> seg[i] == ip[i])
    && (forall i :: 0 <= i < |l4| && !(4 <= i < 8) && (ip[9] == TCP ==> i != 13 && !(16 <= i < 18)) ==>
          seg[|ip| + i] == l4[i])
  }

  /**
   A superpacket made of headers and payload: every segment has the whole headers, TCP options included,
   and the payloads are cut from the payload alone.
   */
  lemma SegmentsOfParts(hdr: VirtioNetHdr, ip: Bytes, l4: Bytes, payload: Bytes, segs: seq<Bytes>)
    requires Headers(ip, l4) && hdr.gsoSize != 0 && payload != []
    requires CalcHdrLen(ip + l4 + payload) == Ok(|ip| + |l4|)
    requires |segs| == CalcGsoSegs(|ip + l4 + payload|, |ip| + |l4|, hdr.gsoSize)
    requires SegmentsUpTo(hdr, |ip| + |l4|, ip + l4 + payload, segs)
    ensures forall i :: 0 <= i < |segs| ==> KeepsHeaders(ip, l4, segs[i])
    ensures Concat(Payloads(|ip| + |l4|, segs)) == payload
    ensures |segs| == (|payload| + hdr.gsoSize as nat - 1) / hdr.gsoSize as nat
  {
    var pkt, hdrLen := ip + l4 + payload, |ip| + |l4|;
    SegmentsCoverPayload(hdr, hdrLen, pkt, segs);
    assert pkt[hdrLen..] == payload;
    forall i | 0 <= i < |segs| ensures KeepsHeaders(ip, l4, segs[i]) {
      assert SegmentAt(hdr, hdrLen, pkt, i, segs[i]);
      HeadersKept(hdr, ip, l4, payload, i, SegStart(hdrLen, hdr.gsoSize, i), SegEnd(hdrLen, hdr.gsoSize, i, |pkt|),
        segs[i]);
    }
  }

  lemma HeadersKept(hdr: VirtioNetHdr, ip: Bytes, l4: Bytes, payload: Bytes, idx: nat, lo: nat, hi: nat, seg: Bytes)
    requires Headers(ip, l4) && CalcHdrLen(ip + l4 + payload) == Ok(|ip| + |l4|)
    requires |ip| + |l4| <= lo <= hi <= |ip + l4 + payload|
    requires IsSegment(hdr, |ip| + |l4|, ip + l4 + payload, idx, lo, hi, seg)
    ensures KeepsHeaders(ip, l4, seg)
  {
    var pkt, h := ip + l4 + payload, |ip|;
    var template := Template(|ip| + |l4|, pkt, lo, hi);
    assert pkt[0] == ip[0] && HeaderLen(pkt) == h && pkt[9] == ip[9];
    forall i | 0 <= i < |l4| && !(4 <= i < 8) && (ip[9] == TCP ==> i != 13 && !(16 <= i < 18))
      ensures seg[h + i] == l4[i]
    {
      assert seg[h..][i] == template[h..][i] && template[h + i] == pkt[h + i] == l4[i];
    }
    forall i | 0 <= i < h && !(2 <= i < 6) && !(10 <= i < 12) ensures seg[i] == ip[i] {
      assert template[i] == pkt[i] == ip[i];
    }
  }

  lemma PiecesOf(hdr: VirtioNetHdr, hdrLen: nat, pkt: Bytes, segs: seq<Bytes>)
    requires CalcHdrLen(pkt) == Ok(hdrLen) && SegmentsUpTo(hdr, hdrLen, pkt, segs)
    ensures forall i :: 0 <= i < |segs| ==> hdrLen <= |segs[i]|
    ensures var ps := Payloads(hdrLen, segs); forall i :: 0 <= i < |ps| ==> PieceAt(hdrLen, hdr.gsoSize, pkt, i, ps[i])
  {
    forall i | 0 <= i < |segs|
      ensures hdrLen <= |segs[i]| && PieceAt(hdrLen, hdr.gsoSize, pkt, i, segs[i][hdrLen..])
    {
      SegmentFacts(hdr, hdrLen, pkt, i, segs[i]);
    }
  }

  /** `p` is the slice of the superpacket that segment `i` carries. */
  predicate PieceAt(hdrLen: nat, gsoSize: nat, pkt: Bytes, i: nat, p: Bytes) {
    && SegStart(hdrLen, gsoSize, i) < SegEnd(hdrLen, gsoSize, i, |pkt|) <= |pkt|
    && p == pkt[SegStart(hdrLen, gsoSize, i)..SegEnd(hdrLen, gsoSize, i, |pkt|)]
  }

  lemma CoverSizes(hdrLen: nat, gsoSize: nat, pkt: Bytes, ps: seq<Bytes>)
    requires gsoSize > 0 && hdrLen < |pkt| && |ps| == CalcGsoSegs(|pkt|, hdrLen, gsoSize)
    requires forall i :: 0 <= i < |ps| ==> PieceAt(hdrLen, gsoSize, pkt, i, ps[i])
    ensures ps != [] && SegEnd(hdrLen, gsoSize, |ps| - 1, |pkt|) == |pkt|
    ensures forall i :: 0 <= i < |ps| ==> 0 < |ps[i]| <= gsoSize && (i < |ps| - 1 ==> |ps[i]| == gsoSize)
  {
    CeilBounds(|pkt| - hdrLen, gsoSize, 0);
    CeilBounds(|pkt| - hdrLen, gsoSize, |ps|);
    forall i | 0 <= i < |ps| ensures 0 < |ps[i]| <= gsoSize && (i < |ps| - 1 ==> |ps[i]| == gsoSize) {
      CeilBounds(|pkt| - hdrLen, gsoSize, i + 1);
      assert PieceAt(hdrLen, gsoSize, pkt, i, ps[i]);
    }
  }

  lemma {:induction false} ConcatPieces(hdrLen: nat, gsoSize: nat, pkt: Bytes, ps: seq<Bytes>)
    requires ps != [] && forall i :: 0 <= i < |ps| ==> PieceAt(hdrLen, gsoSize, pkt, i, ps[i])
    ensures hdrLen <= SegEnd(hdrLen, gsoSize, |ps| - 1, |pkt|) <= |pkt|
    ensures Concat(ps) == pkt[hdrLen..SegEnd(hdrLen, gsoSize, |ps| - 1, |pkt|)]
    decreases |ps|
  {
    var last := |ps| - 1;
    assert PieceAt(hdrLen, gsoSize, pkt, last, ps[last]);
    ConcatLast(ps);
    if last > 0 {
      ConcatPieces(hdrLen, gsoSize, pkt, ps[..last]);
      var lo, hi := SegStart(hdrLen, gsoSize, last), SegEnd(hdrLen, gsoSize, last, |pkt|);
      assert SegEnd(hdrLen, gsoSize, last - 1, |pkt|) == lo;
      assert pkt[hdrLen..lo] + pkt[lo..hi] == pkt[hdrLen..hi];
    }
  }

  lemma ConcatLast(ps: seq<Bytes>)
    requires ps != []
    ensures Concat(ps) == Concat(ps[..|ps| - 1]) + ps[|ps| - 1]
  {
    var last := [ps[|ps| - 1]];
    ConcatAppend(ps[..|ps| - 1], last);
    assert ps == ps[..|ps| - 1] + last;
    assert last[1..] == [];
  }

  /** What the covering argument needs of one segment. */
  lemma SegmentFacts(hdr: VirtioNetHdr, hdrLen: nat, pkt: Bytes, i: nat, seg: Bytes)
    requires CalcHdrLen(pkt) == Ok(hdrLen) && SegmentAt(hdr, hdrLen, pkt, i, seg)
    ensures var lo, hi := SegStart(hdrLen, hdr.gsoSize, i), SegEnd(hdrLen, hdr.gsoSize, i, |pkt|);
      lo < hi <= |pkt| && |seg| == hdrLen + hi - lo && seg[hdrLen..] == pkt[lo..hi]
  {
    PayloadKept(hdr, hdrLen, pkt, i, SegStart(hdrLen, hdr.gsoSize, i), SegEnd(hdrLen, hdr.gsoSize, i, |pkt|), seg);
  }

  /** Neighbouring segments carry consecutive ids, modulo 2^16. */
  lemma ConsecutiveIds(hdr: VirtioNetHdr, hdrLen: nat, pkt: Bytes, i: nat, seg: Bytes, next: Bytes)
    requires CalcHdrLen(pkt) == Ok(hdrLen)
    requires SegmentAt(hdr, hdrLen, pkt, i, seg) && SegmentAt(hdr, hdrLen, pkt, i + 1, next)
    ensures |seg| >= 20 && |next| >= 20 && U16At(next, 4) == (U16At(seg, 4) as nat + 1) % 0x1_0000
  {
    IdField(hdr, hdrLen, pkt, i, seg);
    IdField(hdr, hdrLen, pkt, i + 1, next);
    AddWraps(U16At(pkt, 4) as nat + i, 1, 0x1_0000);
  }

  /**
   The next TCP segment starts where this one ended, modulo 2^32, and this one, not being the
   last, carries neither FIN nor PSH.
   */
  lemma ConsecutiveSequence(hdr: VirtioNetHdr, hdrLen: nat, pkt: Bytes, i: nat, seg: Bytes, next: Bytes)
    requires CalcHdrLen(pkt) == Ok(hdrLen) && pkt[9] == TCP
    requires SegmentAt(hdr, hdrLen, pkt, i, seg) && SegmentAt(hdr, hdrLen, pkt, i + 1, next)
    ensures var h := HeaderLen(pkt);
      && |seg| >= h + 20 && |next| >= h + 20
      && U32At(next, h + 4) == (U32At(seg, h + 4) + (|seg| - hdrLen)) % 0x1_0000_0000
      && !Fin(seg[h + 13]) && !Psh(seg[h + 13])
  {
    SeqField(hdr, hdrLen, pkt, i, seg);
    SeqField(hdr, hdrLen, pkt, i + 1, next);
    assert |seg| == hdrLen + hdr.gsoSize as nat && SegEnd(hdrLen, hdr.gsoSize, i, |pkt|) < |pkt| by {
      SegmentFacts(hdr, hdrLen, pkt, i, seg);
      SegmentFacts(hdr, hdrLen, pkt, i + 1, next);
    }
    AddWraps(U32At(pkt, HeaderLen(pkt) + 4) + Times(i, hdr.gsoSize), hdr.gsoSize, 0x1_0000_0000);
  }

  lemma AddWraps(a: nat, b: nat, m: nat)
    requires m == 0x1_0000 || m == 0x1_0000_0000
    ensures (a + b) % m == (a % m + b) % m
  {}

  lemma IdField(hdr: VirtioNetHdr, hdrLen: nat, pkt: Bytes, i: nat, seg: Bytes)
    requires CalcHdrLen(pkt) == Ok(hdrLen) && SegmentAt(hdr, hdrLen, pkt, i, seg)
    ensures |seg| >= 20 && U16At(seg, 4) == (U16At(pkt, 4) as nat + i) % 0x1_0000
  {}

  lemma SeqField(hdr: VirtioNetHdr, hdrLen: nat, pkt: Bytes, i: nat, seg: Bytes)
    requires CalcHdrLen(pkt) == Ok(hdrLen) && pkt[9] == TCP && SegmentAt(hdr, hdrLen, pkt, i, seg)
    ensures var h := HeaderLen(pkt);
      && |seg| >= h + 20
      && U32At(seg, h + 4) == SegSeq(U32At(pkt, h + 4), hdr.gsoSize, i)
      && seg[h + 13] == (if SegEnd(hdrLen, hdr.gsoSize, i, |pkt|) == |pkt| then pkt[h + 13]
        else WithoutFinPsh(pkt[h + 13]))
  {}

  /** A receiver accepts every segment of an unfragmented superpacket that fits an IPv4 packet. */
  lemma SegmentAccepted(hdr: VirtioNetHdr, hdrLen: nat, pkt: Bytes, i: nat, lo: nat, hi: nat, seg: Bytes)
    requires CalcHdrLen(pkt) == Ok(hdrLen) && hdrLen <= lo <= hi <= |pkt|
    requires IsSegment(hdr, hdrLen, pkt, i, lo, hi, seg)
    requires |seg| < 0x1_0000 && FragmentOffset(pkt) == 0
    ensures WellFormedHeader(seg) && HeaderVerifies(seg)
    ensures HasTransport(seg) && TransportVerifies(seg)
  {
    SegmentShape(hdr, hdrLen, pkt, i, lo, hi, seg);
    assert seg[PayloadStart(seg)..PayloadEnd(seg)] == seg[HeaderLen(pkt)..];
  }

  /** The segment's own length fields delimit it, so its receiver finds the parts where they are. */
  lemma SegmentShape(hdr: VirtioNetHdr, hdrLen: nat, pkt: Bytes, i: nat, lo: nat, hi: nat, seg: Bytes)
    requires CalcHdrLen(pkt) == Ok(hdrLen) && hdrLen <= lo <= hi <= |pkt|
    requires IsSegment(hdr, hdrLen, pkt, i, lo, hi, seg)
    requires |seg| < 0x1_0000 && FragmentOffset(pkt) == 0
    ensures WellFormedHeader(seg) && HeaderLen(seg) == HeaderLen(pkt) && seg[9] == pkt[9] && HasTransport(seg)
    ensures PayloadStart(seg) == HeaderLen(pkt) && PayloadEnd(seg) == |seg| && PayloadLen(seg) == |seg| - HeaderLen(pkt)
  {}
}
