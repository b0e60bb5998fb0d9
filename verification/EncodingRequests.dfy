/** The inside-codec switch: a client register, a server register, and a lossy network between them. */
module EncodingRequests {
  import opened Words
  import opened Wrappers

  const MAX_ATTEMPTS: nat := 5

  datatype Request = Request(id: nat, enable: bool)
  datatype Response = Response(id: nat, enable: bool)

  datatype ClientState = ClientState(id: U64, pending: Option<Request>, attempts: nat, encoding: bool)
  datatype ServerState = ServerState(authorised: bool, id: nat, encoding: bool)

  function NewRequest(c: ClientState, enable: bool): Request {
    Request((c.id as nat + 1) % 0x1_0000_0000_0000_0000, enable)
  }

  function SetEncoding(c: ClientState, enable: bool): ClientState {
    var r := NewRequest(c, enable);
    ClientState(r.id, Some(r), 0, c.encoding)
  }

  predicate Applies(c: ClientState, r: Response) {
    c.pending.Some? && r.id == c.id
  }

  function OnResponse(c: ClientState, r: Response): ClientState {
    if Applies(c, r) then c.(encoding := r.enable, pending := None) else c
  }

  predicate Resends(c: ClientState, id: nat) {
    c.pending.Some? && id == c.id && c.attempts < MAX_ATTEMPTS
  }

  predicate GivesUp(c: ClientState, id: nat) {
    c.pending.Some? && id == c.id && c.attempts >= MAX_ATTEMPTS
  }

  function OnTick(c: ClientState, id: nat): ClientState {
    if Resends(c, id) then c.(attempts := c.attempts + 1)
    else if GivesUp(c, id) then c.(pending := None)
    else c
  }

  predicate Stale(s: ServerState, r: Request) {
    r.id < s.id
  }

  function OnRequest(s: ServerState, r: Request): ServerState {
    if !s.authorised || Stale(s, r) then s else s.(id := r.id, encoding := r.enable)
  }

  function Answer(s: ServerState, r: Request): set<Response> {
    if !s.authorised then {Response(r.id, false)}
    else if Stale(s, r) then {}
    else {Response(r.id, r.enable)}
  }

  // ---- the imperative handlers ----

  /** What a connection is while a handler runs: the codec it was given, its state, type and mode. */
  datatype Context = Context(codec: bool, online: bool, datagram: bool, client: bool)

  datatype Refusal = NoCodec | InvalidState | InvalidConnectionType | InvalidMode

  function Refused(ctx: Context): Option<Refusal> {
    if !ctx.codec then Some(NoCodec)
    else if !ctx.online then Some(InvalidState)
    else if !ctx.datagram then Some(InvalidConnectionType)
    else None
  }

  function RefusedToOthers(ctx: Context): Option<Refusal> {
    if Refused(ctx).None? && !ctx.client then Some(InvalidMode) else Refused(ctx)
  }

  const CLIENT := Context(true, true, true, true)
  const SERVER := Context(true, true, true, false)

  class Client {
    var ctx: Context
    var id: U64
    var pending: Option<Request>
    var attempts: nat
    var encoding: bool
    var outbox: seq<Request>
    var ticks: seq<nat>

    function Meaning(): ClientState
      reads this
    {
      ClientState(id, pending, attempts, encoding)
    }

    constructor (ctx: Context, encoding: bool)
      ensures this.ctx == ctx && Meaning() == ClientState(0, None, 0, encoding) && outbox == [] && ticks == []
    {
      this.ctx, this.encoding := ctx, encoding;
      id, pending, attempts, outbox, ticks := 0, None, 0, [], [];
    }

    method RequestEncoding(enable: bool) returns (r: Option<Refusal>)
      modifies this`id, this`pending, this`attempts, this`outbox, this`ticks
      ensures r == Refused(ctx)
      ensures r.Some? ==> Meaning() == old(Meaning()) && outbox == old(outbox) && ticks == old(ticks)
      ensures r.None? ==>
                && Meaning() == SetEncoding(old(Meaning()), enable)
                && outbox == old(outbox) + [NewRequest(old(Meaning()), enable)] && ticks == old(ticks) + [id]
    {
      r := Refused(ctx);
      if r.Some? {
        return;
      }
      id := (id as nat + 1) % 0x1_0000_0000_0000_0000;
      var request := Request(id, enable);
      pending := Some(request);
      attempts := 0;
      ticks := ticks + [id];
      outbox := outbox + [request];
    }

    method ProcessEncodingResponse(response: Response) returns (r: Option<Refusal>)
      modifies this`pending, this`encoding
      ensures r == RefusedToOthers(ctx)
      ensures Meaning() == if r.Some? then old(Meaning()) else OnResponse(old(Meaning()), response)
    {
      r := RefusedToOthers(ctx);
      if r.Some? || pending.None? {
        return;
      }
      if response.id != id {
        return;
      }
      encoding := response.enable;
      pending := None;
    }

    method CodecTick(requestId: nat) returns (r: Option<Refusal>)
      modifies this`pending, this`attempts, this`outbox, this`ticks
      ensures r == RefusedToOthers(ctx)
      ensures Meaning() == if r.Some? then old(Meaning()) else OnTick(old(Meaning()), requestId)
      ensures if r.None? && Resends(old(Meaning()), requestId)
              then outbox == old(outbox) + [old(pending).value] && ticks == old(ticks) + [id]
              else outbox == old(outbox) && ticks == old(ticks)
    {
      r := RefusedToOthers(ctx);
      if r.Some? || pending.None? {
        return;
      }
      if requestId != id {
        return;
      }
      if attempts >= MAX_ATTEMPTS {
        pending := None;
        return;
      }
      attempts := attempts + 1;
      ticks := ticks + [id];
      outbox := outbox + [pending.value];
    }
  }

  /** An unauthorised server answers before it looks at anything but its codec. */
  function ServerRefuses(ctx: Context, authorised: bool): Option<Refusal> {
    if !ctx.codec || !authorised then None
    else if Refused(ctx).Some? then Refused(ctx)
    else if ctx.client then Some(InvalidMode)
    else None
  }

  class Server {
    var ctx: Context
    const authorised: bool
    var id: nat
    var encoding: bool
    var outbox: seq<Response>

    function Meaning(): ServerState
      reads this
    {
      ServerState(authorised, id, encoding)
    }

    constructor (ctx: Context, authorised: bool, encoding: bool)
      ensures this.ctx == ctx && Meaning() == ServerState(authorised, 0, encoding) && outbox == []
    {
      this.ctx, this.authorised, this.encoding := ctx, authorised, encoding;
      id, outbox := 0, [];
    }

    method ProcessEncodingRequest(q: Request) returns (r: Option<Refusal>)
      modifies this`id, this`encoding, this`outbox
      ensures r == ServerRefuses(ctx, authorised)
      ensures !ctx.codec || r.Some? ==> Meaning() == old(Meaning()) && outbox == old(outbox)
      ensures ctx.codec && r.None? ==>
                && Meaning() == OnRequest(old(Meaning()), q)
                && old(outbox) <= outbox && Elements(outbox[|old(outbox)|..]) == Answer(old(Meaning()), q)
    {
      r := ServerRefuses(ctx, authorised);
      if !ctx.codec || r.Some? {
        return;
      }
      if !authorised {
        outbox := outbox + [Response(q.id, false)];
        assert outbox[|old(outbox)|..] == [Response(q.id, false)];
        return;
      }
      if q.id < id {
        return;
      }
      id := q.id;
      encoding := q.enable;
      outbox := outbox + [Response(q.id, q.enable)];
      assert outbox[|old(outbox)|..] == [Response(q.id, q.enable)];
    }
  }

  // ---- the system ----

  datatype System = System(
    client: ClientState,
    server: ServerState,
    requests: set<Request>,       // every request ever sent
    responses: set<Response>,     // every response ever sent
    delivered: set<Request>,      // requests the server has received
    issued: nat,                  // how often the client asked
    settled: bool)                // the response to the latest request has been applied

  datatype Step = Ask(enable: bool) | Tick(id: nat) | ToServer(q: Request) | ToClient(r: Response)

  function Next(s: System, step: Step): System {
    match step
    case Ask(enable) =>
      s.(client := SetEncoding(s.client, enable), requests := s.requests + {NewRequest(s.client, enable)},
         issued := s.issued + 1, settled := false)
    case Tick(id) =>
      s.(client := OnTick(s.client, id),
         requests := s.requests + if Resends(s.client, id) then {s.client.pending.value} else {})
    case ToServer(q) =>
      if q !in s.requests then s
      else s.(server := OnRequest(s.server, q), responses := s.responses + Answer(s.server, q),
          delivered := s.delivered + {q})
    case ToClient(r) =>
      if r !in s.responses then s
      else s.(client := OnResponse(s.client, r), settled := s.settled || Applies(s.client, r))
  }

  function Init(authorised: bool, clientOn: bool, serverOn: bool): System {
    System(ClientState(0, None, 0, clientOn), ServerState(authorised, 0, serverOn), {}, {}, {}, 0, false)
  }

  function Exec(authorised: bool, clientOn: bool, serverOn: bool, steps: seq<Step>): System {
    if steps == [] then Init(authorised, clientOn, serverOn)
    else Next(Exec(authorised, clientOn, serverOn, steps[..|steps| - 1]), steps[|steps| - 1])
  }

  /** `q` is the request with the highest id among those the server has received. */
  predicate Highest(delivered: set<Request>, q: Request) {
    q in delivered && forall p :: p in delivered ==> p.id <= q.id
  }

  ghost predicate Inv(s: System, serverOn: bool) {
    && s.issued == s.client.id && s.issued < 0x1_0000_0000_0000_0000
    && (s.client.pending.Some? ==> s.client.pending.value in s.requests && s.client.pending.value.id == s.client.id)
    && s.delivered <= s.requests
    && (forall q :: q in s.requests ==> 1 <= q.id <= s.client.id)
    && (forall p, q :: p in s.requests && q in s.requests && p.id == q.id ==> p == q)
    && (s.server.authorised ==>
          && (s.delivered == {} ==> s.server.id == 0 && s.server.encoding == serverOn)
          && (s.delivered != {} ==> Highest(s.delivered, Request(s.server.id, s.server.encoding)))
          && (forall r :: r in s.responses ==> Request(r.id, r.enable) in s.delivered))
    && (!s.server.authorised ==> s.server.encoding == serverOn && forall r :: r in s.responses ==> !r.enable)
    && (s.settled ==> s.client.encoding == (if s.server.authorised then s.server.encoding else false))
    && (s.settled && s.server.authorised ==> s.server.id == s.client.id && s.delivered != {})
  }

  lemma AskKeeps(s: System, enable: bool, serverOn: bool)
    requires Inv(s, serverOn) && s.issued + 1 < 0x1_0000_0000_0000_0000
    ensures Inv(Next(s, Ask(enable)), serverOn)
  {}

  lemma TickKeeps(s: System, id: nat, serverOn: bool)
    requires Inv(s, serverOn)
    ensures Inv(Next(s, Tick(id)), serverOn)
  {}

  lemma ToServerKeeps(s: System, q: Request, serverOn: bool)
    requires Inv(s, serverOn) && q in s.requests
    ensures Inv(Next(s, ToServer(q)), serverOn)
  {
    var s' := Next(s, ToServer(q));
    if s.server.authorised && !Stale(s.server, q) {
      assert Highest(s'.delivered, q) && q == Request(s'.server.id, s'.server.encoding);
      if s.settled {
        assert Request(s.server.id, s.server.encoding) in s.requests;
      }
    }
  }

  lemma ToClientKeeps(s: System, r: Response, serverOn: bool)
    requires Inv(s, serverOn) && r in s.responses
    ensures Inv(Next(s, ToClient(r)), serverOn)
  {}

  lemma NextKeeps(s: System, step: Step, serverOn: bool)
    requires Inv(s, serverOn) && (step.Ask? ==> s.issued + 1 < 0x1_0000_0000_0000_0000)
    ensures Inv(Next(s, step), serverOn)
  {
    match step
    case Ask(enable) => AskKeeps(s, enable, serverOn);
    case Tick(id) => TickKeeps(s, id, serverOn);
    case ToServer(q) =>
      if q in s.requests {
        ToServerKeeps(s, q, serverOn);
      }
    case ToClient(r) =>
      if r in s.responses {
        ToClientKeeps(s, r, serverOn);
      }
  }

  /** How many requests a run asks for. */
  function Asks(steps: seq<Step>): nat {
    if steps == [] then 0 else Asks(steps[..|steps| - 1]) + if steps[|steps| - 1].Ask? then 1 else 0
  }

  lemma {:induction false} RunKeeps(authorised: bool, clientOn: bool, serverOn: bool, steps: seq<Step>)
    requires Asks(steps) < 0x1_0000_0000_0000_0000
    ensures var s := Exec(authorised, clientOn, serverOn, steps);
      Inv(s, serverOn) && s.issued == Asks(steps) && s.server.authorised == authorised
    decreases |steps|
  {
    if steps != [] {
      var n := |steps| - 1;
      RunKeeps(authorised, clientOn, serverOn, steps[..n]);
      NextKeeps(Exec(authorised, clientOn, serverOn, steps[..n]), steps[n], serverOn);
      NextCounts(Exec(authorised, clientOn, serverOn, steps[..n]), steps[n]);
    }
  }

  lemma NextCounts(s: System, step: Step)
    ensures Next(s, step).issued == s.issued + (if step.Ask? then 1 else 0)
    ensures Next(s, step).server.authorised == s.server.authorised
  {}

  // ---- requests carry what was asked for ----

  /** What the client was asked for in a run, in order. */
  function Asked(steps: seq<Step>): (flags: seq<bool>)
    ensures |flags| == Asks(steps)
  {
    if steps == [] then []
    else Asked(steps[..|steps| - 1]) + if steps[|steps| - 1].Ask? then [steps[|steps| - 1].enable] else []
  }

  /** The requests of a run are one per ask, numbered from one, each with the flag of its ask. */
  ghost predicate AsAsked(s: System, flags: seq<bool>) {
    && s.client.id as nat == |flags|
    && (forall q :: q in s.requests <==> 1 <= q.id <= |flags| && q.enable == flags[q.id - 1])
    && (s.client.pending.Some? ==> flags != [] && s.client.pending.value == Request(|flags|, flags[|flags| - 1]))
  }

  lemma NextAsAsked(s: System, step: Step, flags: seq<bool>)
    requires AsAsked(s, flags) && |flags| + 1 < 0x1_0000_0000_0000_0000
    ensures AsAsked(Next(s, step), flags + if step.Ask? then [step.enable] else [])
  {
    assert flags + [] == flags;
  }

  /** In every run the request with number k carries the flag of the k-th ask, and no other request is sent. */
  lemma {:induction false} RequestsAreAsAsked(authorised: bool, clientOn: bool, serverOn: bool, steps: seq<Step>)
    requires Asks(steps) < 0x1_0000_0000_0000_0000
    ensures AsAsked(Exec(authorised, clientOn, serverOn, steps), Asked(steps))
    decreases |steps|
  {
    if steps != [] {
      var n := |steps| - 1;
      RequestsAreAsAsked(authorised, clientOn, serverOn, steps[..n]);
      if steps[n].Ask? {
        NextAsAsked(Exec(authorised, clientOn, serverOn, steps[..n]), steps[n], Asked(steps[..n]));
      } else {
        NotAskedKeeps(Exec(authorised, clientOn, serverOn, steps[..n]), steps[n], Asked(steps[..n]));
      }
    }
  }

  lemma NotAskedKeeps(s: System, step: Step, flags: seq<bool>)
    requires AsAsked(s, flags) && !step.Ask?
    ensures AsAsked(Next(s, step), flags + [])
  {
    assert flags + [] == flags;
  }

  // ---- what every run guarantees ----

  /** An authorised server is set as the highest-numbered request it ever received says. */
  lemma ServerFollowsHighestRequest(clientOn: bool, serverOn: bool, steps: seq<Step>, q: Request)
    requires Asks(steps) < 0x1_0000_0000_0000_0000 && Highest(Exec(true, clientOn, serverOn, steps).delivered, q)
    ensures Exec(true, clientOn, serverOn, steps).server.encoding == q.enable
  {
    RunKeeps(true, clientOn, serverOn, steps);
    var s := Exec(true, clientOn, serverOn, steps);
    assert Highest(s.delivered, Request(s.server.id, s.server.encoding));
  }

  /**
   From the moment the client applies the response to its latest request until it next asks, the two
   sides agree on what it was last asked for, whatever is lost, repeated or reordered in between.
   */
  lemma SettledSidesAgree(clientOn: bool, serverOn: bool, steps: seq<Step>)
    requires Asks(steps) < 0x1_0000_0000_0000_0000 && Exec(true, clientOn, serverOn, steps).settled
    ensures var s, flags := Exec(true, clientOn, serverOn, steps), Asked(steps);
      flags != [] && s.client.encoding == s.server.encoding == flags[|flags| - 1]
  {
    RunKeeps(true, clientOn, serverOn, steps);
    RequestsAreAsAsked(true, clientOn, serverOn, steps);
    var s := Exec(true, clientOn, serverOn, steps);
    assert Request(s.server.id, s.server.encoding) in s.requests;
  }

  /** Asking, after any run, and one delivery each way settle it: on what was asked, or off when unauthorised. */
  lemma AskedAndAnswered(authorised: bool, clientOn: bool, serverOn: bool, steps: seq<Step>, enable: bool)
    requires Asks(steps) + 1 < 0x1_0000_0000_0000_0000
    ensures var q, given := Request(Asks(steps) + 1, enable), authorised && enable;
      var s := Resume(Exec(authorised, clientOn, serverOn, steps),
                      [Ask(enable), ToServer(q), ToClient(Response(q.id, given))]);
      s.settled && s.client.encoding == given && s.server.encoding == (if authorised then enable else serverOn)
  {
    RunKeeps(authorised, clientOn, serverOn, steps);
    var s := Exec(authorised, clientOn, serverOn, steps);
    var q, given := Request(Asks(steps) + 1, enable), authorised && enable;
    AskStep(s, enable, serverOn);
    DeliverBoth(Next(s, Ask(enable)), q, given);
    ResumeThree(s, Ask(enable), ToServer(q), ToClient(Response(q.id, given)));
  }

  lemma ResumeThree(s: System, a: Step, b: Step, c: Step)
    ensures Resume(s, [a, b, c]) == Next(Next(Next(s, a), b), c)
  {
    var three, two, one: seq<Step> := [a, b, c], [b, c], [c];
    assert three[1..] == two && two[1..] == one && one[1..] == [];
    assert Resume(s, three) == Resume(Next(s, a), two);
    assert Resume(Next(s, a), two) == Resume(Next(Next(s, a), b), one);
  }

  lemma AskStep(s: System, enable: bool, serverOn: bool)
    requires Inv(s, serverOn) && s.issued + 1 < 0x1_0000_0000_0000_0000
    ensures var s', q := Next(s, Ask(enable)), Request(s.issued + 1, enable);
      && s'.client.id == q.id && s'.client.pending == Some(q) && q in s'.requests && s'.server == s.server
      && (s.server.authorised ==> !Stale(s'.server, q))
  {
    AskKeeps(s, enable, serverOn);
    if s.server.authorised && s.delivered != {} {
      assert Request(s.server.id, s.server.encoding) in s.requests;
    }
  }

  lemma DeliverBoth(s: System, q: Request, given: bool)
    requires s.client.id == q.id && s.client.pending.Some? && q in s.requests
    requires given == (s.server.authorised && q.enable)
    requires s.server.authorised ==> !Stale(s.server, q)
    ensures var s' := Next(Next(s, ToServer(q)), ToClient(Response(q.id, given)));
      && s'.settled && s'.client.encoding == given
      && s'.server.encoding == (if s.server.authorised then q.enable else s.server.encoding)
  {}

  /** A request the server has received is a later one. */
  ghost predicate Superseded(s: System, q: Request) {
    exists p :: p in s.delivered && p.id > q.id
  }

  /**
   After any run an authorised server answers a request exactly when no later one has reached it, so one
   repeated because its answer was lost is answered again; an unauthorised one answers every request with off.
   */
  lemma AnsweredUnlessSuperseded(authorised: bool, clientOn: bool, serverOn: bool, steps: seq<Step>, q: Request)
    requires Asks(steps) < 0x1_0000_0000_0000_0000 && q in Exec(authorised, clientOn, serverOn, steps).requests
    ensures var s := Exec(authorised, clientOn, serverOn, steps);
      Next(s, ToServer(q)).responses == s.responses +
        if !authorised then {Response(q.id, false)}
        else if Superseded(s, q) then {} else {Response(q.id, q.enable)}
  {
    RunKeeps(authorised, clientOn, serverOn, steps);
    var s := Exec(authorised, clientOn, serverOn, steps);
    if authorised && s.delivered != {} {
      assert Highest(s.delivered, Request(s.server.id, s.server.encoding));
    }
  }

  /** An unauthorised server never switches and answers every request with off. */
  lemma UnauthorisedStaysOff(clientOn: bool, serverOn: bool, steps: seq<Step>)
    requires Asks(steps) < 0x1_0000_0000_0000_0000
    ensures var s := Exec(false, clientOn, serverOn, steps);
        s.server.encoding == serverOn && (s.settled ==> !s.client.encoding)
  {
    RunKeeps(false, clientOn, serverOn, steps);
  }

  // ---- giving up is where the sides part ----

  /** Any further steps from any state. */
  function Resume(s: System, steps: seq<Step>): System
    decreases |steps|
  {
    if steps == [] then s else Resume(Next(s, steps[0]), steps[1..])
  }

  predicate NoAsk(steps: seq<Step>) {
    forall i :: 0 <= i < |steps| ==> !steps[i].Ask?
  }

  /** A client that waits for nothing is moved by nothing but its next request. */
  lemma {:induction false} ClientFrozen(s: System, further: seq<Step>)
    requires s.client.pending == None && NoAsk(further)
    ensures Resume(s, further).client == s.client
    decreases |further|
  {
    if further != [] {
      ClientFrozen(Next(s, further[0]), further[1..]);
    }
  }

  /** No request the server would still take up asks for what the client has. */
  ghost predicate NothingToBringBack(s: System) {
    s.server.authorised ==> forall q :: q in s.requests && !Stale(s.server, q) ==> q.enable != s.client.encoding
  }

  lemma {:induction false} ApartStays(s: System, further: seq<Step>)
    requires s.client.pending == None && s.client.encoding != s.server.encoding && NothingToBringBack(s)
        && NoAsk(further)
    ensures var s' := Resume(s, further); s'.client.encoding != s'.server.encoding
    decreases |further|
  {
    if further != [] {
      ApartStays(Next(s, further[0]), further[1..]);
    }
  }

  /** Until the client asks again the two sides differ, whatever the network does. */
  ghost predicate ApartUntilAsked(s: System) {
    forall further :: NoAsk(further) ==> Resume(s, further).client.encoding != Resume(s, further).server.encoding
  }

  /**
   When the client has given up and the sides differ, they stay apart until it asks again exactly when
   no request the server would still take up asks for what the client has.
   */
  lemma GivingUpLeavesSidesApart(s: System)
    requires s.client.pending == None && s.client.encoding != s.server.encoding
    ensures ApartUntilAsked(s) <==> NothingToBringBack(s)
  {
    if NothingToBringBack(s) {
      forall further | NoAsk(further) ensures Resume(s, further).client.encoding != Resume(s, further).server.encoding {
        ApartStays(s, further);
      }
    } else {
      var q :| q in s.requests && !Stale(s.server, q) && q.enable == s.client.encoding;
      var one: seq<Step> := [ToServer(q)];
      assert one[1..] == [];
      assert Resume(s, one) == Resume(Next(s, ToServer(q)), []);
      assert NoAsk(one);
    }
  }

  /** In particular they do once the latest request has reached the server. */
  lemma DeliveredAndGivenUp(clientOn: bool, serverOn: bool, steps: seq<Step>)
    requires Asks(steps) < 0x1_0000_0000_0000_0000
    requires var s := Exec(true, clientOn, serverOn, steps);
      s.client.pending == None && s.client.encoding != s.server.encoding && s.server.id == s.client.id
    ensures ApartUntilAsked(Exec(true, clientOn, serverOn, steps))
  {
    RunKeeps(true, clientOn, serverOn, steps);
    GivingUpLeavesSidesApart(Exec(true, clientOn, serverOn, steps));
  }

  /** `n` ticks for the latest request, nothing else happening. */
  function Ticked(s: System, n: nat): System {
    if n == 0 then s else var s' := Ticked(s, n - 1); Next(s', Tick(s'.client.id))
  }

  /** Left unanswered, a request is sent again by five ticks of its own and given up at the sixth. */
  lemma {:induction false} TicksToGiveUp(s: System, n: nat)
    requires s.client.pending.Some? && s.client.pending.value in s.requests && s.client.attempts == 0
    ensures Ticked(s, n) == s.(client := s.client.(attempts := if n < 5 then n else 5,
                                                   pending := if n < 6 then s.client.pending else None))
  {
    if n > 0 {
      TicksToGiveUp(s, n - 1);
    }
  }

  /** A tick of the latest request's own. */
  predicate OwnTick(s: System, step: Step) {
    step == Tick(s.client.id)
  }

  function OwnTicks(s: System, further: seq<Step>): nat
    decreases |further|
  {
    if further == [] then 0 else (if OwnTick(s, further[0]) then 1 else 0) + OwnTicks(s, further[1..])
  }

  /** An answer to the latest request reaches the client on the way. */
  predicate AnswerArrives(s: System, further: seq<Step>)
    decreases |further|
  {
    && further != []
    && (|| (further[0].ToClient? && further[0].r in s.responses && further[0].r.id == s.client.id)
        || AnswerArrives(Next(s, further[0]), further[1..]))
  }

  /** What a client with `attempts` behind it is doing after some further steps. */
  ghost predicate Waits(s: System, further: seq<Step>, c: ClientState) {
    && (c.pending.Some? <==> !AnswerArrives(s, further) && s.client.attempts + OwnTicks(s, further) <= 5)
    && (c.pending.Some? ==> c.pending == s.client.pending && c.attempts == s.client.attempts + OwnTicks(s, further))
    && c.id == s.client.id
  }

  lemma {:induction false} WaitsOn(s: System, further: seq<Step>)
    requires s.client.pending.Some? && s.client.attempts <= 5 && NoAsk(further)
    ensures Waits(s, further, Resume(s, further).client)
    decreases |further|
  {
    if further != [] {
      var s', rest := Next(s, further[0]), further[1..];
      SameTicks(s, s', rest);
      if s'.client.pending.Some? {
        WaitsOn(s', rest);
      } else {
        ClientFrozen(s', rest);
      }
    }
  }

  lemma {:induction false} SameTicks(s: System, s': System, further: seq<Step>)
    requires s'.client.id == s.client.id
    ensures OwnTicks(s', further) == OwnTicks(s, further)
    decreases |further|
  {
    if further != [] {
      SameTicks(s, s', further[1..]);
    }
  }

  /**
   However the network behaves, a request is outstanding exactly until an answer to it arrives or its sixth
   tick; up to then each tick has sent it once more.
   */
  lemma OutstandingIff(s: System, enable: bool, further: seq<Step>)
    requires NoAsk(further)
    ensures var asked := Next(s, Ask(enable));
      var c := Resume(asked, further).client;
      && (c.pending.Some? <==> !AnswerArrives(asked, further) && OwnTicks(asked, further) <= 5)
      && (c.pending.Some? ==> c.pending.value.enable == enable && c.attempts == OwnTicks(asked, further))
  {
    WaitsOn(Next(s, Ask(enable)), further);
  }

  /** From the start: the request arrives, its answer is lost, six ticks later the sides are apart for good. */
  lemma LostAnswerSetsSidesApart(on: bool)
    ensures var s := Ticked(Exec(true, on, on, [Ask(!on), ToServer(Request(1, !on))]), 6);
      s.client == ClientState(1, None, 5, on) && s.server.encoding == !on && ApartUntilAsked(s)
  {
    var steps := [Ask(!on), ToServer(Request(1, !on))];
    var first: seq<Step> := [Ask(!on)];
    assert steps[..1] == first && first[..0] == [];
    assert Exec(true, on, on, first) == Next(Init(true, on, on), Ask(!on));
    TicksToGiveUp(Exec(true, on, on, steps), 6);
    GivingUpLeavesSidesApart(Ticked(Exec(true, on, on, steps), 6));
  }

  /** From the start: nothing arrives until the client has given up, and then the request brings the sides together. */
  lemma LateRequestBringsSidesTogether()
    ensures var s := Ticked(Exec(true, false, true, [Ask(false)]), 6);
      s.client.encoding != s.server.encoding && !ApartUntilAsked(s)
  {
    var first: seq<Step> := [Ask(false)];
    assert first[..0] == [];
    var s := Exec(true, false, true, first);
    assert s == Next(Init(true, false, true), Ask(false));
    TicksToGiveUp(s, 6);
    assert Request(1, false) in Ticked(s, 6).requests;
    GivingUpLeavesSidesApart(Ticked(s, 6));
  }

  /** A request that never arrived does not bring them together when it asks for what the server has already. */
  lemma UndeliveredStillApart()
    ensures var s := Ticked(Exec(true, false, true, [Ask(true)]), 6);
      s.server.id != s.client.id && s.client.encoding != s.server.encoding && ApartUntilAsked(s)
  {
    var first: seq<Step> := [Ask(true)];
    assert first[..0] == [];
    var s := Exec(true, false, true, first);
    assert s == Next(Init(true, false, true), Ask(true));
    TicksToGiveUp(s, 6);
    GivingUpLeavesSidesApart(Ticked(s, 6));
  }

  // ---- the objects themselves ----

  /** A client and a server wired to such a network end up where the step system says. */
  method Drive(authorised: bool, clientOn: bool, serverOn: bool, steps: seq<Step>)
    returns (client: Client, server: Server, s: System)
    ensures s == Exec(authorised, clientOn, serverOn, steps) && client.Meaning() == s.client
        && server.Meaning() == s.server
    ensures authorised && Asks(steps) < 0x1_0000_0000_0000_0000 && s.settled ==>
              Asked(steps) != [] && client.encoding == server.encoding == Asked(steps)[|Asked(steps)| - 1]
  {
    client := new Client(CLIENT, clientOn);
    server := new Server(SERVER, authorised, serverOn);
    s := Init(authorised, clientOn, serverOn);
    for i := 0 to |steps|
      invariant client.ctx == CLIENT && server.ctx == SERVER
      invariant s == Exec(authorised, clientOn, serverOn, steps[..i])
      invariant client.Meaning() == s.client && server.Meaning() == s.server
    {
      assert steps[..i + 1][..i] == steps[..i];
      s := Perform(client, server, s, steps[i]);
    }
    assert steps[..|steps|] == steps;
    if authorised && Asks(steps) < 0x1_0000_0000_0000_0000 && s.settled {
      SettledSidesAgree(clientOn, serverOn, steps);
    }
  }

  method Perform(client: Client, server: Server, s: System, step: Step) returns (s': System)
    requires client.ctx == CLIENT && server.ctx == SERVER && client.Meaning() == s.client
        && server.Meaning() == s.server
    modifies client, server
    ensures s' == Next(s, step) && client.Meaning() == s'.client && server.Meaning() == s'.server
    ensures client.ctx == CLIENT && server.ctx == SERVER
  {
    var asked, answered := |client.outbox|, |server.outbox|;
    var delivered, settled := s.delivered, s.settled;
    match step {
      case Ask(enable) =>
        var _ := client.RequestEncoding(enable);
        settled := false;
      case Tick(id) => var _ := client.CodecTick(id);
      case ToServer(q) =>
        if q !in s.requests {
          return s;
        }
        var _ := server.ProcessEncodingRequest(q);
        delivered := delivered + {q};
      case ToClient(r) =>
        if r !in s.responses {
          return s;
        }
        settled := settled || Applies(s.client, r);
        var _ := client.ProcessEncodingResponse(r);
    }
    s' := System(client.Meaning(), server.Meaning(), s.requests + Elements(client.outbox[asked..]),
                 s.responses + Elements(server.outbox[answered..]), delivered,
                 if step.Ask? then s.issued + 1 else s.issued, settled);
  }
}
