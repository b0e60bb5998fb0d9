/** The leaky-bucket loss detector that decides when ExpressLane is given up. */
module LossDetector {
  import opened Words
  import opened Wrappers

  const DEGRADE_STRIKES: nat := 3
  const MISSING_STATS_LIMIT: nat := 3
  const MIN_PACKETS_FOR_LOSS_CHECK: nat := 10

  type U8 = x: nat | x < 256

  /** More than half of at least ten packets missing. */
  predicate HasPacketDrops(sent: U64, received: U64) {
    sent >= MIN_PACKETS_FOR_LOSS_CHECK && 2 * (if sent > received then sent - received else 0) > sent
  }

  function AdvanceStrikes(strikes: U8, sent: U64, received: U64): (U8, bool) {
    if !HasPacketDrops(sent, received) then (if strikes > 0 then strikes - 1 else 0, false)
    else
      var s := if strikes < 255 then strikes + 1 else 255;
      (s, s >= DEGRADE_STRIKES)
  }

  function WrappingSub(a: U64, b: U64): U64 {
    (a as int - b as int) % 0x1_0000_0000_0000_0000
  }

  function SaturatingInc(n: U8): U8 {
    if n < 255 then n + 1 else 255
  }

  datatype Counters = Counters(sent: U64, received: U64)

  /** A keepalive reply: without a reading from the peer, or with one and perhaps a local one. */
  datatype Pong = NoReport | Report(peer: Counters, local: Option<Counters>)

  // ---- the monitor ----

  /** What the monitor remembers between replies. */
  datatype Health = Health(
    degraded: bool,
    inboundStrikes: U8,
    outboundStrikes: U8,
    missingPeerReports: U8,
    missingLocalReadings: U8,
    prevPeer: Counters,
    lastSnapshot: Counters)

  const HEALTHY := Health(false, 0, 0, 0, 0, Counters(0, 0), Counters(0, 0))

  function Silent(h: Health): Health {
    var n := SaturatingInc(h.missingPeerReports);
    h.(missingPeerReports := n, degraded := n >= MISSING_STATS_LIMIT)
  }

  function Blind(h: Health): Health {
    var n := SaturatingInc(h.missingLocalReadings);
    h.(missingPeerReports := 0, missingLocalReadings := n, degraded := n >= MISSING_STATS_LIMIT)
  }

  /** A complete window is folded into both buckets; outbound only if inbound did not give up first. */
  function Window(h: Health, peer: Counters, local: Counters): Health {
    var inbound := AdvanceStrikes(h.inboundStrikes, WrappingSub(peer.sent, h.prevPeer.sent),
                                  WrappingSub(local.received, h.lastSnapshot.received));
    var outbound := AdvanceStrikes(h.outboundStrikes, WrappingSub(local.sent, h.lastSnapshot.sent),
                                   WrappingSub(peer.received, h.prevPeer.received));
    Health(inbound.1 || outbound.1, inbound.0, if inbound.1 then h.outboundStrikes else outbound.0, 0, 0, peer, local)
  }

  function Observe(h: Health, p: Pong): Health {
    if h.degraded then h
    else
      match p
      case NoReport => Silent(h)
      case Report(_, None) => Blind(h)
      case Report(peer, Some(local)) => Window(h, peer, local)
  }

  class Monitor {
    var degraded: bool
    var inboundStrikes: U8
    var outboundStrikes: U8
    var missingPeerReports: U8
    var missingLocalReadings: U8
    var prevPeer: Counters
    var lastSnapshot: Counters

    function Meaning(): Health
      reads this
    {
      Health(degraded, inboundStrikes, outboundStrikes, missingPeerReports, missingLocalReadings, prevPeer,
        lastSnapshot)
    }

    constructor ()
      ensures Meaning() == HEALTHY
    {
      degraded := false;
      inboundStrikes, outboundStrikes, missingPeerReports, missingLocalReadings := 0, 0, 0, 0;
      prevPeer, lastSnapshot := Counters(0, 0), Counters(0, 0);
    }

    /** `ready` is whether the lane is in use; a reply that finds it unused, or degraded, is ignored. */
    method CheckHealth(ready: bool, pong: Pong)
      modifies this
      ensures Meaning() == if ready then Observe(old(Meaning()), pong) else old(Meaning())
    {
      if !ready || degraded {
        return;
      }
      if pong.NoReport? {
        missingPeerReports := SaturatingInc(missingPeerReports);
        if missingPeerReports >= MISSING_STATS_LIMIT {
          degraded := true;
        }
        return;
      }
      missingPeerReports := 0;
      if pong.local.None? {
        missingLocalReadings := SaturatingInc(missingLocalReadings);
        if missingLocalReadings >= MISSING_STATS_LIMIT {
          degraded := true;
        }
        return;
      }
      missingLocalReadings := 0;
      var mySent := WrappingSub(pong.local.value.sent, lastSnapshot.sent);
      var myRecv := WrappingSub(pong.local.value.received, lastSnapshot.received);
      var peerSent := WrappingSub(pong.peer.sent, prevPeer.sent);
      var peerRecv := WrappingSub(pong.peer.received, prevPeer.received);
      prevPeer := pong.peer;
      lastSnapshot := pong.local.value;
      var inbound := AdvanceStrikes(inboundStrikes, peerSent, myRecv);
      inboundStrikes := inbound.0;
      if inbound.1 {
        degraded := true;
        return;
      }
      var outbound := AdvanceStrikes(outboundStrikes, mySent, peerRecv);
      outboundStrikes := outbound.0;
      if outbound.1 {
        degraded := true;
      }
    }
  }

  // ---- histories ----

  predicate IsWindow(p: Pong) {
    p.Report? && p.local.Some?
  }

  /** The counters of the last complete window, zero before the first. */
  function PeerBefore(ps: seq<Pong>): Counters {
    if ps == [] then Counters(0, 0)
    else if IsWindow(ps[|ps| - 1]) then ps[|ps| - 1].peer
    else PeerBefore(ps[..|ps| - 1])
  }

  function LocalBefore(ps: seq<Pong>): Counters {
    if ps == [] then Counters(0, 0)
    else if IsWindow(ps[|ps| - 1]) then ps[|ps| - 1].local.value
    else LocalBefore(ps[..|ps| - 1])
  }

  /** At least ten packets went out and fewer than half of them arrived. */
  predicate Lossy(sent: nat, received: nat) {
    sent >= 10 && 2 * received < sent
  }

  /** How far a 64-bit counter has moved on, around the end if it is lower now. */
  function Grown(before: U64, now: U64): nat {
    if now >= before then now - before else 0x1_0000_0000_0000_0000 - before + now
  }

  lemma DropsMeanLossy(sent: U64, received: U64)
    ensures HasPacketDrops(sent, received) <==> Lossy(sent, received)
  {
    assert MIN_PACKETS_FOR_LOSS_CHECK == 10;
  }

  lemma DeltaIsGrowth(before: U64, now: U64)
    ensures WrappingSub(now, before) as nat == Grown(before, now)
  {}

  datatype Direction = In | Out

  /** Whether a complete window lost too much in one direction, given the counters before it. */
  predicate IsBad(d: Direction, p: Pong, peer: Counters, local: Counters)
    requires IsWindow(p)
  {
    if d == In then Lossy(Grown(peer.sent, p.peer.sent), Grown(local.received, p.local.value.received))
    else Lossy(Grown(local.sent, p.local.value.sent), Grown(peer.received, p.peer.received))
  }

  lemma BadMeansDrops(d: Direction, p: Pong, peer: Counters, local: Counters)
    requires IsWindow(p)
    ensures IsBad(d, p, peer, local) <==>
            if d == In
            then HasPacketDrops(WrappingSub(p.peer.sent, peer.sent),
                                WrappingSub(p.local.value.received, local.received))
            else HasPacketDrops(WrappingSub(p.local.value.sent, local.sent),
                                WrappingSub(p.peer.received, peer.received))
  {
    DeltaIsGrowth(peer.sent, p.peer.sent);
    DeltaIsGrowth(peer.received, p.peer.received);
    DeltaIsGrowth(local.sent, p.local.value.sent);
    DeltaIsGrowth(local.received, p.local.value.received);
  }

  /** For each complete window, whether it was bad. */
  function Windows(d: Direction, ps: seq<Pong>): seq<bool> {
    if ps == [] then []
    else
      var before, p := ps[..|ps| - 1], ps[|ps| - 1];
      if !IsWindow(p) then Windows(d, before)
      else Windows(d, before) + [IsBad(d, p, PeerBefore(before), LocalBefore(before))]
  }

  /** Replies without a report at the end of the history. */
  function SilentPeer(ps: seq<Pong>): nat {
    if ps == [] || !ps[|ps| - 1].NoReport? then 0 else SilentPeer(ps[..|ps| - 1]) + 1
  }

  /** Failed local readings since the last complete window; replies without a report are not counted. */
  function BlindLocal(ps: seq<Pong>): nat {
    if ps == [] || IsWindow(ps[|ps| - 1]) then 0
    else BlindLocal(ps[..|ps| - 1]) + if ps[|ps| - 1].NoReport? then 0 else 1
  }

  /** The bucket: up one for a bad window, down one, not below zero, for a good one. */
  function Bucket(ws: seq<bool>): nat {
    if ws == [] then 0 else Pour(Bucket(ws[..|ws| - 1]), ws[|ws| - 1])
  }

  function Pour(level: nat, bad: bool): nat {
    if bad then level + 1 else if level > 0 then level - 1 else 0
  }

  predicate Trigger(ps: seq<Pong>) {
    || Bucket(Windows(In, ps)) >= DEGRADE_STRIKES
    || Bucket(Windows(Out, ps)) >= DEGRADE_STRIKES
    || SilentPeer(ps) >= MISSING_STATS_LIMIT
    || BlindLocal(ps) >= MISSING_STATS_LIMIT
  }

  ghost predicate Triggered(ps: seq<Pong>) {
    exists k :: 0 <= k <= |ps| && Trigger(ps[..k])
  }

  /** The fields are what the history of replies says they must be. */
  ghost predicate Tracks(h: Health, ps: seq<Pong>) {
    && h.inboundStrikes == Bucket(Windows(In, ps)) && h.outboundStrikes == Bucket(Windows(Out, ps))
    && h.missingPeerReports == SilentPeer(ps) && h.missingLocalReadings == BlindLocal(ps)
    && h.prevPeer == PeerBefore(ps) && h.lastSnapshot == LocalBefore(ps)
  }

  ghost predicate Follows(h: Health, ps: seq<Pong>) {
    (h.degraded <==> Triggered(ps)) && (!h.degraded ==> Tracks(h, ps))
  }

  lemma WindowStep(d: Direction, ps: seq<Pong>, p: Pong)
    requires IsWindow(p)
    ensures Bucket(Windows(d, ps + [p])) == Pour(Bucket(Windows(d, ps)), IsBad(d, p, PeerBefore(ps), LocalBefore(ps)))
  {
    var now, bad := ps + [p], IsBad(d, p, PeerBefore(ps), LocalBefore(ps));
    assert now[..|ps|] == ps;
    assert Windows(d, now) == Windows(d, ps) + [bad];
    assert (Windows(d, ps) + [bad])[..|Windows(d, ps)|] == Windows(d, ps);
  }

  lemma OtherStep(ps: seq<Pong>, p: Pong)
    requires !IsWindow(p)
    ensures var now := ps + [p];
      && Windows(In, now) == Windows(In, ps) && Windows(Out, now) == Windows(Out, ps)
      && PeerBefore(now) == PeerBefore(ps) && LocalBefore(now) == LocalBefore(ps)
      && SilentPeer(now) == (if p.NoReport? then SilentPeer(ps) + 1 else 0)
      && BlindLocal(now) == BlindLocal(ps) + (if p.NoReport? then 0 else 1)
  {
    assert (ps + [p])[..|ps|] == ps;
  }

  lemma StrikesPour(strikes: U8, sent: U64, received: U64)
    requires strikes < DEGRADE_STRIKES
    ensures AdvanceStrikes(strikes, sent, received).0 == Pour(strikes, HasPacketDrops(sent, received))
    ensures AdvanceStrikes(strikes, sent, received).1 <==>
        Pour(strikes, HasPacketDrops(sent, received)) >= DEGRADE_STRIKES
  {}

  /** Before it has degraded, the next reply keeps the fields in step or is the one that degrades. */
  lemma WindowTracks(h: Health, ps: seq<Pong>, p: Pong)
    requires !h.degraded && Tracks(h, ps) && !Trigger(ps) && IsWindow(p)
    ensures var now, h' := ps + [p], Window(h, p.peer, p.local.value);
      (h'.degraded <==> Trigger(now)) && (!h'.degraded ==> Tracks(h', now))
  {
    assert (ps + [p])[..|ps|] == ps;
    WindowStep(In, ps, p);
    WindowStep(Out, ps, p);
    BadMeansDrops(In, p, h.prevPeer, h.lastSnapshot);
    BadMeansDrops(Out, p, h.prevPeer, h.lastSnapshot);
    StrikesPour(h.inboundStrikes, WrappingSub(p.peer.sent, h.prevPeer.sent),
                WrappingSub(p.local.value.received, h.lastSnapshot.received));
    StrikesPour(h.outboundStrikes, WrappingSub(p.local.value.sent, h.lastSnapshot.sent),
                WrappingSub(p.peer.received, h.prevPeer.received));
  }

  lemma OtherTracks(h: Health, ps: seq<Pong>, p: Pong)
    requires !h.degraded && Tracks(h, ps) && !Trigger(ps) && !IsWindow(p)
    ensures var now, h' := ps + [p], Observe(h, p);
      (h'.degraded <==> Trigger(now)) && (!h'.degraded ==> Tracks(h', now))
  {
    OtherStep(ps, p);
  }

  lemma ObserveFollows(h: Health, ps: seq<Pong>, p: Pong)
    requires Follows(h, ps)
    ensures Follows(Observe(h, p), ps + [p])
  {
    TriggerMonotone(ps, p);
    if !h.degraded {
      assert !Trigger(ps) by {
        assert ps[..|ps|] == ps;
      }
      if IsWindow(p) {
        WindowTracks(h, ps, p);
      } else {
        OtherTracks(h, ps, p);
      }
    }
  }

  lemma TriggerMonotone(ps: seq<Pong>, p: Pong)
    ensures Triggered(ps + [p]) <==> Triggered(ps) || Trigger(ps + [p])
  {
    var now := ps + [p];
    assert now[..|now|] == now;
    forall k | 0 <= k <= |ps| ensures now[..k] == ps[..k] {}
    if Triggered(ps) {
      var k :| 0 <= k <= |ps| && Trigger(ps[..k]);
      assert Trigger(now[..k]);
    }
    if Triggered(now) {
      var k :| 0 <= k <= |ps| + 1 && Trigger(now[..k]);
      assert k <= |ps| ==> Trigger(ps[..k]);
    }
  }

  // ---- what the bucket measures ----

  /** Bad windows minus good ones. */
  function Excess(ws: seq<bool>): int {
    if ws == [] then 0 else Excess(ws[..|ws| - 1]) + if ws[|ws| - 1] then 1 else -1
  }

  lemma ExcessExtend(ws: seq<bool>, i: nat)
    requires i < |ws|
    ensures Excess(ws[i..]) == Excess(ws[..|ws| - 1][i..]) + if ws[|ws| - 1] then 1 else -1
  {
    assert ws[i..][..|ws| - 1 - i] == ws[..|ws| - 1][i..];
  }

  /** The level is the largest excess of any run of windows ending now. */
  lemma {:induction false} BucketIsWorstSuffix(ws: seq<bool>)
    ensures forall i :: 0 <= i <= |ws| ==> Excess(ws[i..]) <= Bucket(ws)
    ensures exists i :: 0 <= i <= |ws| && Excess(ws[i..]) == Bucket(ws)
    decreases |ws|
  {
    assert ws[|ws|..] == [];
    if ws != [] {
      var init := ws[..|ws| - 1];
      BucketIsWorstSuffix(init);
      forall i | 0 <= i < |ws| ensures Excess(ws[i..]) <= Bucket(ws) {
        ExcessExtend(ws, i);
        assert Excess(init[i..]) <= Bucket(init);
      }
      var i :| 0 <= i <= |init| && Excess(init[i..]) == Bucket(init);
      ExcessExtend(ws, i);
      if !ws[|ws| - 1] && Bucket(init) == 0 {
        assert Excess(ws[|ws|..]) == Bucket(ws);
      } else {
        assert Excess(ws[i..]) == Bucket(ws);
      }
    }
  }

  /** A level is reached at some time exactly when some contiguous block of windows has that much excess. */
  lemma BucketReachedIffBlock(ws: seq<bool>, level: nat)
    ensures (exists k :: 0 <= k <= |ws| && Bucket(ws[..k]) >= level) <==>
            (exists i, j :: 0 <= i <= j <= |ws| && Excess(ws[i..j]) >= level)
  {
    if exists k :: 0 <= k <= |ws| && Bucket(ws[..k]) >= level {
      var k :| 0 <= k <= |ws| && Bucket(ws[..k]) >= level;
      BucketIsWorstSuffix(ws[..k]);
      var i :| 0 <= i <= k && Excess(ws[..k][i..]) == Bucket(ws[..k]);
      assert ws[..k][i..] == ws[i..k];
      assert Excess(ws[i..k]) >= level;
    }
    if exists i, j :: 0 <= i <= j <= |ws| && Excess(ws[i..j]) >= level {
      var i, j :| 0 <= i <= j <= |ws| && Excess(ws[i..j]) >= level;
      BucketIsWorstSuffix(ws[..j]);
      assert ws[..j][i..] == ws[i..j];
      assert Bucket(ws[..j]) >= level;
    }
  }

  /** Each direction's windows so far are a prefix of its windows later. */
  lemma {:induction false} WindowsOfPrefix(d: Direction, ps: seq<Pong>, n: nat)
    requires n <= |ps|
    ensures Windows(d, ps[..n]) <= Windows(d, ps)
    decreases |ps|
  {
    if n == |ps| {
      assert ps[..n] == ps;
    } else {
      var before := ps[..|ps| - 1];
      assert before[..n] == ps[..n];
      WindowsOfPrefix(d, before, n);
    }
  }

  lemma {:induction false} WindowPrefixReached(d: Direction, ps: seq<Pong>, m: nat) returns (k: nat)
    requires m <= |Windows(d, ps)|
    ensures k <= |ps| && Windows(d, ps[..k]) == Windows(d, ps)[..m]
    decreases |ps|
  {
    if m == |Windows(d, ps)| {
      assert ps[..|ps|] == ps && Windows(d, ps)[..m] == Windows(d, ps);
      k := |ps|;
    } else {
      var before := ps[..|ps| - 1];
      assert Windows(d, before)[..m] == Windows(d, ps)[..m];
      k := WindowPrefixReached(d, before, m);
      assert before[..k] == ps[..k];
    }
  }

  /** Some contiguous block of windows is bad by at least the threshold. */
  ghost predicate BadBlock(ws: seq<bool>) {
    exists i, j :: 0 <= i <= j <= |ws| && Excess(ws[i..j]) >= DEGRADE_STRIKES
  }

  predicate Missing(ps: seq<Pong>) {
    SilentPeer(ps) >= MISSING_STATS_LIMIT || BlindLocal(ps) >= MISSING_STATS_LIMIT
  }

  ghost predicate WentSilent(ps: seq<Pong>) {
    exists k :: 0 <= k <= |ps| && Missing(ps[..k])
  }

  lemma FullBucketIsBadBlock(d: Direction, ps: seq<Pong>, k: nat)
    requires k <= |ps| && Bucket(Windows(d, ps[..k])) >= DEGRADE_STRIKES
    ensures BadBlock(Windows(d, ps))
  {
    BucketReachedIffBlock(Windows(d, ps), DEGRADE_STRIKES);
    WindowsOfPrefix(d, ps, k);
    assert Windows(d, ps)[..|Windows(d, ps[..k])|] == Windows(d, ps[..k]);
  }

  lemma BadBlockFillsBucket(d: Direction, ps: seq<Pong>) returns (k: nat)
    requires BadBlock(Windows(d, ps))
    ensures k <= |ps| && Bucket(Windows(d, ps[..k])) >= DEGRADE_STRIKES
  {
    BucketReachedIffBlock(Windows(d, ps), DEGRADE_STRIKES);
    var m :| 0 <= m <= |Windows(d, ps)| && Bucket(Windows(d, ps)[..m]) >= DEGRADE_STRIKES;
    k := WindowPrefixReached(d, ps, m);
  }

  /**
   The monitor has degraded by the end of a history exactly when, in one direction, some contiguous
   block of windows has bad exceeding good by three, or three readings in a row were missing on
   either side.
   */
  lemma DegradedIff(ps: seq<Pong>)
    ensures Triggered(ps) <==> BadBlock(Windows(In, ps)) || BadBlock(Windows(Out, ps)) || WentSilent(ps)
  {
    if Triggered(ps) {
      var k :| 0 <= k <= |ps| && Trigger(ps[..k]);
      if Bucket(Windows(In, ps[..k])) >= DEGRADE_STRIKES {
        FullBucketIsBadBlock(In, ps, k);
      } else if Bucket(Windows(Out, ps[..k])) >= DEGRADE_STRIKES {
        FullBucketIsBadBlock(Out, ps, k);
      } else {
        assert Missing(ps[..k]);
      }
    }
    if BadBlock(Windows(In, ps)) {
      var k := BadBlockFillsBucket(In, ps);
      assert Trigger(ps[..k]);
    } else if BadBlock(Windows(Out, ps)) {
      var k := BadBlockFillsBucket(Out, ps);
      assert Trigger(ps[..k]);
    } else if WentSilent(ps) {
      var k :| 0 <= k <= |ps| && Missing(ps[..k]);
      assert Trigger(ps[..k]);
    }
  }

  /** A reply, and whether the lane was in use when it came. */
  datatype Reply = Reply(ready: bool, pong: Pong)

  /** The replies that count. */
  function Heard(rs: seq<Reply>): seq<Pong> {
    if rs == [] then [] else Heard(rs[..|rs| - 1]) + if rs[|rs| - 1].ready then [rs[|rs| - 1].pong] else []
  }

  lemma HeardStep(rs: seq<Reply>, i: nat)
    requires i < |rs|
    ensures Heard(rs[..i + 1]) == if rs[i].ready then Heard(rs[..i]) + [rs[i].pong] else Heard(rs[..i])
  {
    assert rs[..i + 1][..i] == rs[..i];
  }

  /** A whole connection's worth of replies through the monitor. */
  method Watch(rs: seq<Reply>) returns (degraded: bool)
    ensures var ps := Heard(rs);
      degraded <==> BadBlock(Windows(In, ps)) || BadBlock(Windows(Out, ps)) || WentSilent(ps)
  {
    var m := new Monitor();
    for i := 0 to |rs|
      invariant Follows(m.Meaning(), Heard(rs[..i]))
    {
      HeardStep(rs, i);
      if rs[i].ready {
        ObserveFollows(m.Meaning(), Heard(rs[..i]), rs[i].pong);
      }
      m.CheckHealth(rs[i].ready, rs[i].pong);
    }
    assert rs[..|rs|] == rs;
    DegradedIff(Heard(rs));
    return m.degraded;
  }
}
