/** The network transition detector: an address change and a route arrival close together. */
module TransitionDetector {
  import opened Wrappers

  datatype Kind = Addr | Route

  datatype Event = Event(kind: Kind, at: nat)

  datatype State = State(lastAddr: Option<nat>, lastRoute: Option<nat>, lastEmit: Option<nat>)

  datatype Config = Config(window: nat, cooldown: nat)

  /** Instants are numbers; a difference that would be negative saturates at zero. */
  function Since(now: nat, earlier: nat): nat {
    if now >= earlier then now - earlier else 0
  }

  function Note(s: State, e: Event): State {
    if e.kind == Addr then s.(lastAddr := Some(e.at)) else s.(lastRoute := Some(e.at))
  }

  predicate Fires(c: Config, s: State, now: nat) {
    && s.lastAddr.Some? && s.lastRoute.Some?
    && Since(now, s.lastAddr.value) <= c.window && Since(now, s.lastRoute.value) <= c.window
    && (s.lastEmit.None? || Since(now, s.lastEmit.value) >= c.cooldown)
  }

  function Step(c: Config, s: State, e: Event): State {
    if Fires(c, Note(s, e), e.at) then State(None, None, Some(e.at)) else Note(s, e)
  }

  class Detector {
    const c: Config
    var lastAddr: Option<nat>
    var lastRoute: Option<nat>
    var lastEmit: Option<nat>

    function Meaning(): State
      reads this
    {
      State(lastAddr, lastRoute, lastEmit)
    }

    constructor (window: nat, cooldown: nat)
      ensures c == Config(window, cooldown) && Meaning() == After(c, [])
    {
      c := Config(window, cooldown);
      lastAddr, lastRoute, lastEmit := None, None, None;
    }

    method OnAddr(now: nat) returns (emit: bool)
      modifies this
      ensures emit == Fires(c, Note(old(Meaning()), Event(Addr, now)), now)
      ensures Meaning() == Step(c, old(Meaning()), Event(Addr, now))
    {
      lastAddr := Some(now);
      emit := TryEmit(now);
    }

    method OnRoute(now: nat) returns (emit: bool)
      modifies this
      ensures emit == Fires(c, Note(old(Meaning()), Event(Route, now)), now)
      ensures Meaning() == Step(c, old(Meaning()), Event(Route, now))
    {
      lastRoute := Some(now);
      emit := TryEmit(now);
    }

    method TryEmit(now: nat) returns (emit: bool)
      modifies this
      ensures emit == Fires(c, old(Meaning()), now)
      ensures Meaning() == if emit then State(None, None, Some(now)) else old(Meaning())
    {
      if lastAddr.None? || lastRoute.None? {
        return false;
      }
      var paired := Since(now, lastAddr.value) <= c.window && Since(now, lastRoute.value) <= c.window;
      var cooled := lastEmit.None? || Since(now, lastEmit.value) >= c.cooldown;
      if paired && cooled {
        lastAddr, lastRoute, lastEmit := None, None, Some(now);
        return true;
      }
      return false;
    }
  }

  // ---- histories ----

  function After(c: Config, es: seq<Event>): State {
    if es == [] then State(None, None, None) else Step(c, After(c, es[..|es| - 1]), es[|es| - 1])
  }

  /** Whether event `i` of the history completes a transition. */
  predicate EmitsAt(c: Config, es: seq<Event>, i: nat)
    requires i < |es|
  {
    Fires(c, Note(After(c, es[..i]), es[i]), es[i].at)
  }

  predicate InOrder(es: seq<Event>) {
    forall i, j :: 0 <= i < j < |es| ==> es[i].at <= es[j].at
  }

  /** `n` events have passed up to and including the last emission before event `i`. */
  predicate LastEmissionEnds(c: Config, es: seq<Event>, i: nat, n: nat)
    requires i <= |es|
  {
    && n <= i
    && (n > 0 ==> EmitsAt(c, es, n - 1))
    && forall k :: n <= k < i ==> !EmitsAt(c, es, k)
  }

  /** Some event of the kind since the last emission, up to and including event `i`, is within the window. */
  ghost predicate Backed(c: Config, es: seq<Event>, n: nat, i: nat, kind: Kind)
    requires i < |es|
  {
    exists k :: n <= k <= i && es[k].kind == kind && Since(es[i].at, es[k].at) <= c.window
  }

  function Stored(s: State, kind: Kind): Option<nat> {
    if kind == Addr then s.lastAddr else s.lastRoute
  }

  /** `k` is the last event of the kind in `[n, i)`. */
  predicate LastOfKind(es: seq<Event>, n: nat, i: nat, kind: Kind, k: nat) {
    n <= k < i <= |es| && es[k].kind == kind && forall j :: k < j < i ==> es[j].kind != kind
  }

  ghost predicate NoneOfKind(es: seq<Event>, n: nat, i: nat, kind: Kind)
    requires i <= |es|
  {
    forall j :: n <= j < i ==> es[j].kind != kind
  }

  lemma AfterStep(c: Config, es: seq<Event>, i: nat)
    requires i < |es|
    ensures After(c, es[..i + 1]) == Step(c, After(c, es[..i]), es[i])
  {
    assert es[..i + 1][..i] == es[..i];
  }

  /** What the detector remembers: the last event of each kind since the last emission, and that emission. */
  lemma {:induction false} Remembers(c: Config, es: seq<Event>, i: nat, n: nat, kind: Kind)
    requires i <= |es| && LastEmissionEnds(c, es, i, n)
    ensures After(c, es[..i]).lastEmit == if n > 0 then Some(es[n - 1].at) else None
    ensures match Stored(After(c, es[..i]), kind)
            case None => NoneOfKind(es, n, i, kind)
            case Some(t) => exists k: nat :: LastOfKind(es, n, i, kind, k) && es[k].at == t
    decreases i
  {
    if i > 0 {
      AfterStep(c, es, i - 1);
      if n < i {
        assert !EmitsAt(c, es, i - 1);
        Remembers(c, es, i - 1, n, kind);
        var s := After(c, es[..i - 1]);
        if es[i - 1].kind == kind {
          assert LastOfKind(es, n, i, kind, i - 1);
        } else if Stored(s, kind).Some? {
          var k: nat :| LastOfKind(es, n, i - 1, kind, k) && es[k].at == Stored(s, kind).value;
          assert LastOfKind(es, n, i, kind, k);
        }
      }
    }
  }

  lemma StoredMeansBacked(c: Config, es: seq<Event>, n: nat, i: nat, kind: Kind)
    requires i < |es| && InOrder(es) && LastEmissionEnds(c, es, i, n)
    ensures var stored := Stored(Note(After(c, es[..i]), es[i]), kind);
      (stored.Some? && Since(es[i].at, stored.value) <= c.window) <==> Backed(c, es, n, i, kind)
  {
    Remembers(c, es, i, n, kind);
    var stored := Stored(After(c, es[..i]), kind);
    if es[i].kind == kind {
      assert Since(es[i].at, es[i].at) == 0;
    } else if stored.Some? {
      var k: nat :| LastOfKind(es, n, i, kind, k) && es[k].at == stored.value;
      if Backed(c, es, n, i, kind) {
        var j :| n <= j <= i && es[j].kind == kind && Since(es[i].at, es[j].at) <= c.window;
        assert j <= k;
        assert es[j].at <= es[k].at <= es[i].at;
      }
    }
  }

  /**
   For every time-ordered history, an event completes a transition exactly when an address event and
   a route event, both since the last emission, lie within the window of it and the cooldown is over.
   */
  lemma EmitsIff(c: Config, es: seq<Event>, n: nat, i: nat)
    requires i < |es| && InOrder(es) && LastEmissionEnds(c, es, i, n)
    ensures EmitsAt(c, es, i) <==>
              && Backed(c, es, n, i, Addr) && Backed(c, es, n, i, Route)
              && (n > 0 ==> es[i].at >= es[n - 1].at + c.cooldown)
  {
    StoredMeansBacked(c, es, n, i, Addr);
    StoredMeansBacked(c, es, n, i, Route);
    Remembers(c, es, i, n, Addr);
    if n > 0 {
      assert es[n - 1].at <= es[i].at;
    }
  }

  /** The last emission before an event, found by looking back. */
  function LookBack(c: Config, es: seq<Event>, i: nat): (n: nat)
    requires i <= |es|
    ensures LastEmissionEnds(c, es, i, n)
  {
    if i == 0 then 0 else if EmitsAt(c, es, i - 1) then i else LookBack(c, es, i - 1)
  }

  /**
   Two emissions are at least a cooldown apart, and the pair behind the later one lies wholly after
   the earlier one: no event backs two emissions.
   */
  lemma EmissionsApart(c: Config, es: seq<Event>, i: nat, j: nat) returns (a: nat, r: nat)
    requires i < j < |es| && InOrder(es) && EmitsAt(c, es, i) && EmitsAt(c, es, j)
    ensures es[j].at >= es[i].at + c.cooldown
    ensures i < a <= j && i < r <= j && es[a].kind == Addr && es[r].kind == Route
    ensures es[j].at - es[a].at <= c.window && es[j].at - es[r].at <= c.window
  {
    var n := LookBack(c, es, j);
    assert n > i;
    EmitsIff(c, es, n, j);
    a :| n <= a <= j && es[a].kind == Addr && Since(es[j].at, es[a].at) <= c.window;
    r :| n <= r <= j && es[r].kind == Route && Since(es[j].at, es[r].at) <= c.window;
    assert es[i].at <= es[n - 1].at <= es[j].at && es[a].at <= es[j].at && es[r].at <= es[j].at;
  }

  /** Feeding a history through the detector emits exactly where the history says. */
  method Watch(window: nat, cooldown: nat, es: seq<Event>) returns (emitted: seq<bool>)
    ensures |emitted| == |es|
    ensures forall i :: 0 <= i < |es| ==> (emitted[i] <==> EmitsAt(Config(window, cooldown), es, i))
  {
    var d := new Detector(window, cooldown);
    emitted := [];
    for i := 0 to |es|
      invariant d.c == Config(window, cooldown) && d.Meaning() == After(d.c, es[..i])
      invariant |emitted| == i && forall k :: 0 <= k < i ==> (emitted[k] <==> EmitsAt(d.c, es, k))
    {
      AfterStep(d.c, es, i);
      var emit;
      if es[i].kind == Addr {
        emit := d.OnAddr(es[i].at);
      } else {
        emit := d.OnRoute(es[i].at);
      }
      emitted := emitted + [emit];
    }
  }
}
