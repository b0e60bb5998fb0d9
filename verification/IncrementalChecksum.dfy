/** The incremental checksum update of `utils.rs`, after [Eqn. 4] of RFC 1624. */
module IncrementalChecksum {
  import opened OnesComplement

  /** Wrapping subtraction with end-around borrow; the `- 1` cannot underflow. */
  function EndAroundSub(a: U16, b: U16): U16 {
    var n := (a as int - b as int) % 0x1_0000;
    if a < b then n - 1 else n
  }

  function UpdateWord(c: U16, was: U16, now: U16): U16 {
    EndAroundSub(EndAroundSub(c, Complement(was)), now)
  }

  function Update(c: U16, updates: seq<(U16, U16)>): U16
    decreases |updates|
  {
    if updates == [] then c
    else Update(UpdateWord(c, updates[0].0, updates[0].1), updates[1..])
  }

  /** How much the covered words grow. */
  function Growth(updates: seq<(U16, U16)>): int {
    if updates == [] then 0
    else updates[0].1 as int - updates[0].0 as int + Growth(updates[1..])
  }

  /** Every old word is all ones and every new one is zero: the only updates that keep 0xFFFF. */
  predicate AllOnesToZero(updates: seq<(U16, U16)>) {
    forall i :: 0 <= i < |updates| ==> updates[i].0 == ONES && updates[i].1 == 0
  }

  function Reversed(updates: seq<(U16, U16)>): seq<(U16, U16)> {
    seq(|updates|, i requires 0 <= i < |updates| => (updates[i].1, updates[i].0))
  }

  lemma ModAgain(x: int, y: int)
    ensures (x % ONES + y) % ONES == (x + y) % ONES
  {}

  lemma UpdateWordExact(c: U16, was: U16, now: U16)
    ensures UpdateWord(c, was, now) ==
            if c == ONES && was == ONES && now == 0 then ONES
            else (c as int + was as int - now as int) % ONES
  {
    var d := EndAroundSub(c, Complement(was));
    assert d == (if c < Complement(was) then c as int + was as int else c as int + was as int - ONES);
    assert UpdateWord(c, was, now) == (if d < now then d as int - now as int + ONES else d as int - now as int);
  }

  /**
   The whole update is subtraction modulo 65535, always landing on 0x0000 rather than 0xFFFF
   for zero, except that 0xFFFF survives when every subtracted word is zero.
   */
  lemma {:induction false} UpdateExact(c: U16, updates: seq<(U16, U16)>)
    ensures Update(c, updates) ==
            if c == ONES && AllOnesToZero(updates) then ONES else (c as int - Growth(updates)) % ONES
    ensures Update(c, updates) as int % ONES == (c as int - Growth(updates)) % ONES
    decreases |updates|
  {
    if updates != [] {
      var (was, now) := updates[0];
      var d := UpdateWord(c, was, now);
      UpdateWordExact(c, was, now);
      UpdateExact(d, updates[1..]);
      assert AllOnesToZero(updates) <==> was == ONES && now == 0 && AllOnesToZero(updates[1..]);
      OneMoreWord(c, was, now, d, Growth(updates[1..]), AllOnesToZero(updates[1..]));
    }
  }

  /** One word in front of a list of updates that grow by `g`. */
  lemma OneMoreWord(c: U16, was: U16, now: U16, d: U16, g: int, kept: bool)
    requires d == if c == ONES && was == ONES && now == 0 then ONES else (c as int + was as int - now as int) % ONES
    ensures (d as int - g) % ONES == (c as int - (now as int - was as int + g)) % ONES
    ensures d == ONES && kept <==> c == ONES && was == ONES && now == 0 && kept
  {
    ModAgain(c as int + was as int - now as int, -g);
  }

  lemma {:induction false} GrowthReversed(updates: seq<(U16, U16)>)
    ensures Growth(Reversed(updates)) == -Growth(updates)
  {
    if updates != [] {
      GrowthReversed(updates[1..]);
      assert Reversed(updates)[1..] == Reversed(updates[1..]);
    }
  }

  /** Undoing an update gives back the checksum with 0xFFFF normalised to zero, for every update. */
  lemma UpdateThereAndBack(c: U16, updates: seq<(U16, U16)>)
    requires updates != []
    ensures Update(Update(c, updates), Reversed(updates)) == c as int % ONES
  {
    UpdateExact(c, updates);
    UpdateExact(Update(c, updates), Reversed(updates));
    GrowthReversed(updates);
    ModAgain(c as int - Growth(updates), Growth(updates));
    ModAgain(Update(c, updates), Growth(updates));
    if c == ONES && AllOnesToZero(updates) {
      assert Reversed(updates)[0].1 == ONES;
    }
  }
}
