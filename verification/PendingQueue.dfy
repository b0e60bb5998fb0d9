/** The queue of TLS writes: frames kept in order while the TLS library blocks or writes in part. */
module PendingQueue {
  import opened OnesComplement

  const MAX_TLS_PENDING_QUEUE_PACKETS: nat := 64

  /** A frame as its encoding; `innerTcp` is whether it carries an inner TCP packet. */
  datatype Frame = Frame(wire: Bytes, innerTcp: bool)

  /** One answer of the TLS library: blocked, so many bytes taken, application data instead, or an error. */
  datatype Poll = PendingWrite | PendingRead | Ready(n: nat) | AppData | Fails

  /** The answers still to come, what has been written, and what has happened to the frames. */
  datatype State = State(
    stream: bool,
    queue: seq<Bytes>,
    script: seq<Poll>,
    written: Bytes,
    accepted: seq<Bytes>,
    lost: seq<Bytes>)

  function Limit(stream: bool, f: Frame): nat {
    if stream && !f.innerTcp then MAX_TLS_PENDING_QUEUE_PACKETS else 1
  }

  function NextPoll(script: seq<Poll>): Poll {
    if script == [] then PendingWrite else script[0]
  }

  function Rest(script: seq<Poll>): seq<Poll> {
    if script == [] then [] else script[1..]
  }

  function Taken(n: nat, head: Bytes): nat {
    if n < |head| then n else |head|
  }

  function Enqueue(s: State, f: Frame): State {
    if |s.queue| < Limit(s.stream, f)
    then s.(queue := s.queue + [f.wire], accepted := s.accepted + [f.wire]) else s
  }

  /** Writing from the front until something blocks, stops short or fails, or the queue is empty. */
  function Drain(s: State): State
    decreases |s.queue|
  {
    if s.queue == [] then s
    else
      var head, t := s.queue[0], s.(script := Rest(s.script));
      match NextPoll(s.script)
      case PendingWrite => t
      case PendingRead => t
      case Ready(n) =>
        var k := Taken(n, head);
        var u := t.(written := s.written + head[..k]);
        if k < |head| then u.(queue := [head[k..]] + s.queue[1..]) else Drain(u.(queue := s.queue[1..]))
      case AppData => Drain(t.(queue := s.queue[1..], lost := s.lost + [head]))
      case Fails => t.(queue := s.queue[1..], lost := s.lost + [head])
  }

  /** Whether the drain stops on an error of the TLS library. */
  predicate Errs(s: State)
    decreases |s.queue|
  {
    s.queue != [] &&
    var head, t := s.queue[0], s.(script := Rest(s.script), queue := s.queue[1..]);
    match NextPoll(s.script)
    case PendingWrite => false
    case PendingRead => false
    case Ready(n) => n >= |head| && Errs(t.(written := s.written + head))
    case AppData => Errs(t.(lost := s.lost + [head]))
    case Fails => true
  }

  function Send(s: State, f: Frame): State {
    Drain(Enqueue(s, f))
  }

  class Connection {
    const stream: bool
    var queue: seq<Bytes>
    var script: seq<Poll>
    var written: Bytes
    ghost var accepted: seq<Bytes>
    ghost var lost: seq<Bytes>

    ghost function Meaning(): State
      reads this
    {
      State(stream, queue, script, written, accepted, lost)
    }

    /** One call into the TLS library: the unwritten part of the buffer comes back. */
    method TryWrite(head: Bytes) returns (poll: Poll, remainder: Bytes)
      modifies this`script, this`written
      ensures poll == NextPoll(old(script)) && script == Rest(old(script))
      ensures var k := if poll.Ready? then Taken(poll.n, head) else 0;
        written == old(written) + head[..k] && remainder == head[k..]
    {
      poll := NextPoll(script);
      script := Rest(script);
      var k := if poll.Ready? then Taken(poll.n, head) else 0;
      written := written + head[..k];
      remainder := head[k..];
    }

    /** One turn of the loop: pop the head, offer it, and put back what must be retried. */
    method WriteHead() returns (more: bool, ok: bool)
      requires queue != []
      modifies this
      ensures more ==> ok && |queue| < |old(queue)| && Drain(Meaning()) == Drain(old(Meaning()))
      ensures more ==> Errs(Meaning()) == Errs(old(Meaning()))
      ensures !more ==> Meaning() == Drain(old(Meaning())) && ok == !Errs(old(Meaning()))
    {
      var head := queue[0];
      queue := queue[1..];
      var poll, remainder := TryWrite(head);
      assert head[..|head|] == head && head[..0] == [] && head[0..] == head && old(written) + [] == old(written);
      match poll
      case PendingWrite =>
        queue := [remainder] + queue;
        return false, true;
      case PendingRead =>
        queue := [remainder] + queue;
        return false, true;
      case Ready(_) =>
        if remainder != [] {
          queue := [remainder] + queue;
          return false, true;
        }
        return true, true;
      case AppData =>
        lost := lost + [head];
        return true, true;
      case Fails =>
        lost := lost + [head];
        return false, false;
    }

    method SendFrameOrQueue(frame: Frame) returns (ok: bool)
      modifies this
      ensures Meaning() == Send(old(Meaning()), frame)
      ensures ok <==> !Errs(Enqueue(old(Meaning()), frame))
    {
      var queueLimit := if stream then (if frame.innerTcp then 1 else MAX_TLS_PENDING_QUEUE_PACKETS) else 1;
      if |queue| < queueLimit {
        queue := queue + [frame.wire];
        accepted := accepted + [frame.wire];
      }
      var more := true;
      ok := true;
      while more && queue != []
        invariant if more then Drain(Meaning()) == Send(old(Meaning()), frame)
            else Meaning() == Send(old(Meaning()), frame)
        invariant more ==> ok && Errs(Meaning()) == Errs(Enqueue(old(Meaning()), frame))
        invariant !more ==> ok == !Errs(Enqueue(old(Meaning()), frame))
        decreases more, |queue|
      {
        more, ok := WriteHead();
      }
    }
  }

  // ---- whole runs ----

  function SendAll(s: State, frames: seq<Frame>): State {
    if frames == [] then s else Send(SendAll(s, frames[..|frames| - 1]), frames[|frames| - 1])
  }

  function Start(stream: bool, script: seq<Poll>): State {
    State(stream, [], script, [], [], [])
  }

  /** Bytes written so far followed by the queue. */
  function Stream(s: State): Bytes {
    s.written + Concat(s.queue)
  }

  ghost predicate Inv(s: State) {
    && |s.queue| <= (if s.stream then MAX_TLS_PENDING_QUEUE_PACKETS else 1)
    && (forall i :: 0 <= i < |s.queue| ==> s.queue[i] != [])
    && (forall i :: 0 <= i < |s.lost| ==> s.lost[i] != [])
    && |Stream(s)| + |Concat(s.lost)| == |Concat(s.accepted)|
    && (s.lost == [] ==> Stream(s) == Concat(s.accepted))
  }

  /** A head of which `k` bytes were written: the stream is the same. */
  lemma WrittenKeeps(s: State, k: nat)
    requires s.queue != [] && k <= |s.queue[0]|
    ensures Stream(s.(written := s.written + s.queue[0][..k], queue := [s.queue[0][k..]] + s.queue[1..])) == Stream(s)
    ensures k == |s.queue[0]| ==> Stream(s.(written := s.written + s.queue[0][..k], queue := s.queue[1..])) == Stream(s)
  {}

  lemma ConcatOne(x: Bytes)
    ensures Concat([x]) == x
  {}

  /** A frame joining the queue joins the stream at its end. */
  lemma StreamGrows(s: State, w: Bytes)
    ensures Stream(s.(queue := s.queue + [w])) == Stream(s) + w
  {
    ConcatAppend(s.queue, [w]);
    ConcatOne(w);
    assert s.written + (Concat(s.queue) + w) == (s.written + Concat(s.queue)) + w;
  }

  lemma LosingKeeps(s: State)
    requires Inv(s) && s.queue != []
    ensures Inv(s.(queue := s.queue[1..], lost := s.lost + [s.queue[0]]))
  {
    ConcatAppend(s.lost, [s.queue[0]]);
    ConcatOne(s.queue[0]);
  }

  /** A write that took `k` bytes of the head leaves the invariant alone, whatever the script. */
  lemma TakenKeeps(s: State, k: nat, script: seq<Poll>)
    requires Inv(s) && s.queue != [] && k <= |s.queue[0]|
    ensures k < |s.queue[0]| ==>
              Inv(s.(script := script, written := s.written + s.queue[0][..k],
                queue := [s.queue[0][k..]] + s.queue[1..]))
    ensures k == |s.queue[0]| ==>
        Inv(s.(script := script, written := s.written + s.queue[0][..k], queue := s.queue[1..]))
  {
    WrittenKeeps(s, k);
  }

  lemma {:induction false} DrainKeeps(s: State)
    requires Inv(s)
    ensures Inv(Drain(s))
    decreases |s.queue|
  {
    if s.queue != [] {
      var t := s.(script := Rest(s.script));
      match NextPoll(s.script)
      case PendingWrite =>
      case PendingRead =>
      case Ready(n) =>
        var k := Taken(n, s.queue[0]);
        TakenKeeps(s, k, t.script);
        if k == |s.queue[0]| {
          DrainKeeps(t.(written := s.written + s.queue[0][..k], queue := s.queue[1..]));
        }
      case AppData =>
        LosingKeeps(t);
        DrainKeeps(t.(queue := s.queue[1..], lost := s.lost + [s.queue[0]]));
      case Fails =>
        LosingKeeps(t);
    }
  }

  lemma EnqueueKeeps(s: State, f: Frame)
    requires Inv(s) && f.wire != []
    ensures Inv(Enqueue(s, f))
  {
    if |s.queue| < Limit(s.stream, f) {
      var t := Enqueue(s, f);
      assert Stream(t) == Stream(s) + f.wire by {
        StreamGrows(s, f.wire);
      }
      assert Concat(t.accepted) == Concat(s.accepted) + f.wire by {
        ConcatAppend(s.accepted, [f.wire]);
        ConcatOne(f.wire);
      }
    }
  }

  lemma {:induction false} RunKeeps(s: State, frames: seq<Frame>)
    requires Inv(s) && forall i :: 0 <= i < |frames| ==> frames[i].wire != []
    ensures Inv(SendAll(s, frames))
    decreases |frames|
  {
    if frames != [] {
      var n := |frames| - 1;
      RunKeeps(s, frames[..n]);
      EnqueueKeeps(SendAll(s, frames[..n]), frames[n]);
      DrainKeeps(Enqueue(SendAll(s, frames[..n]), frames[n]));
    }
  }

  /**
   Over every run and every pattern of blocking and partial writes, the bytes written followed by the
   queue are the accepted frames in order, whole and uninterleaved, exactly when no write that was made
   failed or came back with application data; and the queue stays within its limit.
   */
  lemma StreamIntactIffQuiet(stream: bool, script: seq<Poll>, frames: seq<Frame>)
    requires forall i :: 0 <= i < |frames| ==> frames[i].wire != []
    ensures var s := SendAll(Start(stream, script), frames);
      && (Stream(s) == Concat(s.accepted) <==> Quiet(UsedUp(script, s)))
      && |s.queue| <= (if stream then MAX_TLS_PENDING_QUEUE_PACKETS else 1)
  {
    RunKeeps(Start(stream, script), frames);
    var s := SendAll(Start(stream, script), frames);
    SameStream(Start(stream, script), frames);
    LostPerCostlyAnswer(stream, script, frames);
    if s.lost != [] {
      assert |Concat(s.lost)| >= |s.lost[0]| > 0;
    }
  }

  lemma {:induction false} SameStream(s: State, frames: seq<Frame>)
    ensures SendAll(s, frames).stream == s.stream
    decreases |frames|
  {
    if frames != [] {
      SameStream(s, frames[..|frames| - 1]);
      DrainStream(Enqueue(SendAll(s, frames[..|frames| - 1]), frames[|frames| - 1]));
    }
  }

  lemma {:induction false} DrainStream(s: State)
    ensures Drain(s).stream == s.stream
    decreases |s.queue|
  {
    if s.queue != [] && (NextPoll(s.script).Ready? || NextPoll(s.script).AppData?) {
      var head, t := s.queue[0], s.(script := Rest(s.script), queue := s.queue[1..]);
      DrainStream(t.(written := s.written + head));
      DrainStream(t.(lost := s.lost + [head]));
      assert head[..|head|] == head;
    }
  }

  // ---- which frames are accepted ----

  /** The encodings of the frames that found room: fewer than 64 waiting, or none where only one may wait. */
  function FoundRoom(s: State, frames: seq<Frame>): seq<Bytes> {
    if frames == [] then []
    else
      var n := |frames| - 1;
      var waiting, f := |SendAll(s, frames[..n]).queue|, frames[n];
      FoundRoom(s, frames[..n]) + if waiting < (if s.stream && !f.innerTcp then 64 else 1) then [f.wire] else []
  }

  lemma {:induction false} DrainAccepts(s: State)
    ensures Drain(s).accepted == s.accepted
    decreases |s.queue|
  {
    if s.queue != [] && (NextPoll(s.script).Ready? || NextPoll(s.script).AppData?) {
      var head, t := s.queue[0], s.(script := Rest(s.script), queue := s.queue[1..]);
      DrainAccepts(t.(written := s.written + head));
      DrainAccepts(t.(lost := s.lost + [head]));
      assert head[..|head|] == head;
    }
  }

  /** A frame is accepted exactly when it found room, and no other way. */
  lemma {:induction false} AcceptedFoundRoom(s: State, frames: seq<Frame>)
    ensures SendAll(s, frames).accepted == s.accepted + FoundRoom(s, frames)
    decreases |frames|
  {
    if frames != [] {
      var n := |frames| - 1;
      AcceptedFoundRoom(s, frames[..n]);
      SameStream(s, frames[..n]);
      DrainAccepts(Enqueue(SendAll(s, frames[..n]), frames[n]));
    }
  }

  // ---- how far a drain gets ----

  /** The answer rids the queue of this frame and lets the next one have its turn. */
  predicate Finishes(p: Poll, frame: Bytes) {
    p.AppData? || (p.Ready? && p.n >= |frame|)
  }

  /** How many frames in a row are done with. */
  function Through(queue: seq<Bytes>, script: seq<Poll>): (n: nat)
    ensures n <= |queue| && n <= |script|
  {
    if queue == [] || script == [] || !Finishes(script[0], queue[0]) then 0
    else 1 + Through(queue[1..], script[1..])
  }

  /** What is written and what is lost of the first frames. */
  function Output(queue: seq<Bytes>, script: seq<Poll>, n: nat): Bytes
    requires n <= |queue| && n <= |script|
  {
    if n == 0 then [] else (if script[0].Ready? then queue[0] else []) + Output(queue[1..], script[1..], n - 1)
  }

  function Losses(queue: seq<Bytes>, script: seq<Poll>, n: nat): seq<Bytes>
    requires n <= |queue| && n <= |script|
  {
    if n == 0 then [] else (if script[0].Ready? then [] else [queue[0]]) + Losses(queue[1..], script[1..], n - 1)
  }

  /** What the first answer that does not finish its frame leaves. */
  predicate Stops(d: State, queue: seq<Bytes>, written: Bytes, lost: seq<Bytes>, answer: Poll)
    requires queue != []
  {
    match answer
    case PendingWrite => d.queue == queue && d.written == written && d.lost == lost
    case PendingRead => d.queue == queue && d.written == written && d.lost == lost
    case Ready(k) =>
      && k < |queue[0]| && d.queue == [queue[0][k..]] + queue[1..] && d.written == written + queue[0][..k]
      && d.lost == lost
    case AppData => false
    case Fails => d.queue == queue[1..] && d.written == written && d.lost == lost + [queue[0]]
  }

  /** The drain in closed form: it goes on as long as answers finish frames, and stops at the first that does not. */
  ghost predicate DrainedTo(s: State, d: State, errs: bool) {
    var n := Through(s.queue, s.script);
    DrainedBy(d, s.queue[n..], s.script[n..], s.written + Output(s.queue, s.script, n),
              s.lost + Losses(s.queue, s.script, n), errs)
  }

  ghost predicate DrainedBy(d: State, queue: seq<Bytes>, script: seq<Poll>, written: Bytes, lost: seq<Bytes>,
                            errs: bool)
  {
    if queue == [] then d.queue == [] && d.script == script && d.written == written && d.lost == lost && !errs
    else
      && Stops(d, queue, written, lost, NextPoll(script)) && d.script == Rest(script)
      && (errs <==> NextPoll(script).Fails?)
  }

  lemma {:induction false} DrainExactly(s: State)
    ensures DrainedTo(s, Drain(s), Errs(s))
    decreases |s.queue|
  {
    if s.queue == [] || s.script == [] || !Finishes(s.script[0], s.queue[0]) {
      StopsAtOnce(s);
    } else {
      var t := AfterHead(s);
      DrainExactly(t);
      assert s.queue[0][..|s.queue[0]|] == s.queue[0] && Drain(s) == Drain(t) && Errs(s) == Errs(t);
      DrainedShift(s, t, Drain(t), Errs(t));
    }
  }

  /** The state after an answer that finishes the first frame. */
  function AfterHead(s: State): State
    requires s.queue != [] && s.script != []
  {
    var t := s.(script := s.script[1..], queue := s.queue[1..]);
    if s.script[0].Ready? then t.(written := s.written + s.queue[0]) else t.(lost := s.lost + [s.queue[0]])
  }

  lemma StopsAtOnce(s: State)
    requires s.queue == [] || s.script == [] || !Finishes(s.script[0], s.queue[0])
    ensures DrainedTo(s, Drain(s), Errs(s))
  {
    assert s.written + [] == s.written && s.lost + [] == s.lost && s.queue[0..] == s.queue && s.script[0..] == s.script;
  }

  lemma DrainedShift(s: State, t: State, d: State, errs: bool)
    requires s.queue != [] && s.script != [] && Finishes(s.script[0], s.queue[0]) && t == AfterHead(s)
    requires DrainedTo(t, d, errs)
    ensures DrainedTo(s, d, errs)
  {
    var n := Through(t.queue, t.script);
    OutputShift(s, t, n);
    assert t.script[n..] == s.script[n + 1..] && t.queue[n..] == s.queue[n + 1..];
    assert Through(s.queue, s.script) == n + 1;
  }

  lemma OutputShift(s: State, t: State, n: nat)
    requires s.queue != [] && s.script != [] && Finishes(s.script[0], s.queue[0]) && t == AfterHead(s)
    requires n <= |t.queue| && n <= |t.script|
    ensures s.written + Output(s.queue, s.script, n + 1) == t.written + Output(t.queue, t.script, n)
    ensures s.lost + Losses(s.queue, s.script, n + 1) == t.lost + Losses(t.queue, t.script, n)
  {
    var out, lost := Output(t.queue, t.script, n), Losses(t.queue, t.script, n);
    if s.script[0].Ready? {
      assert s.written + (s.queue[0] + out) == s.written + s.queue[0] + out;
      assert [] + lost == lost;
    } else {
      assert s.lost + ([s.queue[0]] + lost) == s.lost + [s.queue[0]] + lost;
      assert [] + out == out;
    }
  }

  // ---- nothing is lost without an error or application data ----

  predicate Quiet(script: seq<Poll>) {
    forall i :: 0 <= i < |script| ==> !script[i].AppData? && !script[i].Fails?
  }

  /** How many answers cost a frame. */
  function Costly(script: seq<Poll>): nat {
    if script == [] then 0
    else (if script[0].AppData? || script[0].Fails? then 1 else 0) + Costly(script[1..])
  }

  lemma {:induction false} CostlyAppend(a: seq<Poll>, b: seq<Poll>)
    ensures Costly(a + b) == Costly(a) + Costly(b)
  {
    if a == [] {
      assert a + b == b;
    } else {
      CostlyAppend(a[1..], b);
      assert (a + b)[1..] == a[1..] + b;
    }
  }

  lemma {:induction false} QuietIffNoneCostly(script: seq<Poll>)
    ensures Quiet(script) <==> Costly(script) == 0
  {
    if script != [] {
      QuietIffNoneCostly(script[1..]);
      assert Quiet(script) <==> Quiet(script[..1]) && Quiet(script[1..]);
    }
  }

  /** `after` has `used` answers less than `before`, and lost a frame for each of them that costs one. */
  predicate Consumed(before: State, after: State, used: seq<Poll>) {
    before.script == used + after.script && |after.lost| == |before.lost| + Costly(used)
  }

  lemma ConsumedThen(s: State, t: State, u: State, first: seq<Poll>, rest: seq<Poll>)
    requires Consumed(s, t, first) && Consumed(t, u, rest)
    ensures Consumed(s, u, first + rest)
  {
    CostlyAppend(first, rest);
    assert first + (rest + u.script) == (first + rest) + u.script;
  }

  lemma {:induction false} DrainConsumes(s: State) returns (used: seq<Poll>)
    ensures Consumed(s, Drain(s), used)
    decreases |s.queue|
  {
    used := if s.queue == [] || s.script == [] then [] else [s.script[0]];
    if s.queue != [] {
      var head, t := s.queue[0], s.(script := Rest(s.script), queue := s.queue[1..]);
      var poll := NextPoll(s.script);
      if poll.AppData? || (poll.Ready? && poll.n >= |head|) {
        var u := if poll.AppData? then t.(lost := s.lost + [head]) else t.(written := s.written + head);
        assert head[..|head|] == head && Drain(s) == Drain(u);
        var rest := DrainConsumes(u);
        ConsumedThen(s, u, Drain(s), used, rest);
        used := used + rest;
      }
    }
  }

  lemma {:induction false} RunConsumes(s: State, frames: seq<Frame>) returns (used: seq<Poll>)
    ensures Consumed(s, SendAll(s, frames), used)
    decreases |frames|
  {
    used := [];
    if frames != [] {
      var n := |frames| - 1;
      used := RunConsumes(s, frames[..n]);
      var rest := DrainConsumes(Enqueue(SendAll(s, frames[..n]), frames[n]));
      ConsumedThen(s, SendAll(s, frames[..n]), SendAll(s, frames), used, rest);
      used := used + rest;
    }
  }

  /** The answers of the TLS library a run has used up. */
  function UsedUp(script: seq<Poll>, s: State): seq<Poll> {
    if |s.script| <= |script| then script[..|script| - |s.script|] else []
  }

  /** A run loses a frame for each answer it used up that is an error or application data, and no other. */
  lemma LostPerCostlyAnswer(stream: bool, script: seq<Poll>, frames: seq<Frame>)
    ensures var s := SendAll(Start(stream, script), frames);
      && |s.lost| == Costly(UsedUp(script, s)) && script == UsedUp(script, s) + s.script
      && (s.lost == [] <==> Quiet(UsedUp(script, s)))
  {
    var used := RunConsumes(Start(stream, script), frames);
    var s := SendAll(Start(stream, script), frames);
    assert UsedUp(script, s) == used;
    QuietIffNoneCostly(used);
  }

  lemma {:induction false} QuietDrain(s: State)
    requires Quiet(s.script) && s.lost == []
    ensures Quiet(Drain(s).script) && Drain(s).lost == []
    decreases |s.queue|
  {
    if s.queue != [] && NextPoll(s.script).Ready? {
      var head := s.queue[0];
      assert head[..|head|] == head;
      QuietDrain(s.(script := Rest(s.script), queue := s.queue[1..], written := s.written + head));
    }
  }

  lemma {:induction false} QuietRunLosesNothing(stream: bool, script: seq<Poll>, frames: seq<Frame>)
    requires Quiet(script)
    ensures var s := SendAll(Start(stream, script), frames); Quiet(s.script) && s.lost == []
    decreases |frames|
  {
    if frames != [] {
      var n := |frames| - 1;
      QuietRunLosesNothing(stream, script, frames[..n]);
      QuietDrain(Enqueue(SendAll(Start(stream, script), frames[..n]), frames[n]));
    }
  }
}
