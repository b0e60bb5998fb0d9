/**
 The earlier replay window, kept by the source as a frozen reference: bit `age` of the
 bitmap stands for the counter `high - age`, and the whole bitmap moves on every advance.
 */
module ShiftingWindow {
  import opened Words
  import opened ReplaySpec
  import ReplayWindowRing

  /** Bit `p` of a bitmap shifted left by `count` as one long number. */
  predicate ShiftedSlot(bitmap: seq<Word>, count: nat, p: nat)
    requires |bitmap| == BLOCKS && p < WINDOW
  {
    p >= count && Slot(bitmap, p - count)
  }

  /** One word of the shifted bitmap, as the loops compute it for a count of `64 * blocks + bits`. */
  function ShiftedWord(bitmap: seq<Word>, blocks: nat, bits: nat, i: nat): Word
    requires |bitmap| == BLOCKS && i < BLOCKS && bits < 64
  {
    if bits == 0 then (if i >= blocks then bitmap[i - blocks] else {})
    else
      (if i >= blocks then Shl(bitmap[i - blocks], bits) else {}) +
      (if i > blocks then Shr(bitmap[i - blocks - 1], 64 - bits) else {})
  }

  lemma ShiftedSlots(was: seq<Word>, now: seq<Word>, count: nat)
    requires |was| == BLOCKS && |now| == BLOCKS && count < WINDOW
    requires forall k :: count / 64 <= k < BLOCKS ==> now[k] == ShiftedWord(was, count / 64, count % 64, k)
    requires forall k :: 0 <= k < count / 64 ==> now[k] == {}
    ensures forall p: nat :: p < WINDOW ==> Slot(now, p) == ShiftedSlot(was, count, p)
  {}

  ghost predicate Aged(bitmap: seq<Word>, high: nat, seen: set<nat>)
    requires |bitmap| == BLOCKS
  {
    forall age: nat :: age < WINDOW ==> (Slot(bitmap, age) <==> high - age in seen)
  }

  lemma Advance(was: seq<Word>, now: seq<Word>, high: nat, counter: nat, seen: set<nat>)
    requires |was| == BLOCKS && |now| == BLOCKS && Aged(was, high, seen) && high < counter
    requires forall c :: c in seen ==> 1 <= c <= high
    requires forall p: nat :: p < WINDOW ==> Slot(now, p) == (p == 0 || ShiftedSlot(was, counter - high, p))
    ensures Aged(now, counter, seen + {counter})
  {}

  lemma Fill(was: seq<Word>, now: seq<Word>, high: nat, age: nat, seen: set<nat>)
    requires |was| == BLOCKS && |now| == BLOCKS && Aged(was, high, seen) && age < WINDOW && age <= high
    requires forall p: nat :: p < WINDOW ==> Slot(now, p) == (p == age || Slot(was, p))
    ensures Aged(now, high, seen + {high - age})
  {}

  class Shifting {
    const bitmap: array<Word>
    var high: U64
    ghost var seen: set<nat>

    ghost predicate Valid()
      reads this, bitmap
    {
      && bitmap.Length == BLOCKS
      && (forall c :: c in seen ==> 1 <= c <= high)
      && Aged(bitmap[..], high, seen)
    }

    ghost function Meaning(): Window
      reads this
    {
      Window(high, seen)
    }

    constructor ()
      ensures Valid() && Meaning() == EMPTY && fresh(bitmap)
    {
      bitmap := new Word[BLOCKS](_ => {});
      high := 0;
      seen := {};
    }

    method SetBit(position: nat)
      requires bitmap.Length == BLOCKS && position < WINDOW
      modifies bitmap
      ensures forall p: nat :: p < WINDOW ==>
                Slot(bitmap[..], p) == (p == position || Slot(old(bitmap[..]), p))
    {
      ghost var before := bitmap[..];
      bitmap[position / 64] := bitmap[position / 64] + Mask(position % 64);
      assert bitmap[..] == before[position / 64 := before[position / 64] + Mask(position % 64)];
      forall p: nat | p < WINDOW
        ensures Slot(bitmap[..], p) == (p == position || Slot(before, p))
      {
        SetSlot(before, position, p);
      }
    }

    method TestBit(position: nat) returns (r: bool)
      requires bitmap.Length == BLOCKS && position < WINDOW
      ensures r == Slot(bitmap[..], position)
    {
      r := bitmap[position / 64] * Mask(position % 64) != {};
      assert Slot(bitmap[..], position) ==> position % 64 in bitmap[position / 64] * Mask(position % 64);
    }

    method ShiftLeft(count: nat)
      requires bitmap.Length == BLOCKS
      modifies bitmap
      ensures forall p: nat :: p < WINDOW ==> Slot(bitmap[..], p) == ShiftedSlot(old(bitmap[..]), count, p)
    {
      if count >= WINDOW {
        forall i | 0 <= i < bitmap.Length {
          bitmap[i] := {};
        }
        return;
      }
      ghost var was := bitmap[..];
      var blocks := count / 64;
      var bits := count % 64;
      if bits == 0 {
        for i := BLOCKS downto blocks
          invariant forall k :: i <= k < BLOCKS ==> bitmap[k] == ShiftedWord(was, blocks, bits, k)
          invariant forall k :: 0 <= k < i ==> bitmap[k] == was[k]
        {
          bitmap[i] := bitmap[i - blocks];
        }
      } else {
        for i := BLOCKS downto 0
          invariant forall k :: i <= k < BLOCKS ==> bitmap[k] == ShiftedWord(was, blocks, bits, k)
          invariant forall k :: 0 <= k < i ==> bitmap[k] == was[k]
        {
          var lower := if i >= blocks then Shl(bitmap[i - blocks], bits) else {};
          var upper := if i > blocks then Shr(bitmap[i - blocks - 1], 64 - bits) else {};
          bitmap[i] := lower + upper;
        }
      }
      for i := 0 to blocks
        invariant forall k :: blocks <= k < BLOCKS ==> bitmap[k] == ShiftedWord(was, blocks, bits, k)
        invariant forall k :: 0 <= k < i ==> bitmap[k] == {}
      {
        bitmap[i] := {};
      }
      ShiftedSlots(was, bitmap[..], count);
    }

    method Accept(counter: U64) returns (r: bool)
      requires Valid()
      modifies this, bitmap
      ensures Valid()
      ensures r == Admits(old(Meaning()), counter)
      ensures Meaning() == Admit(old(Meaning()), counter)
    {
      if counter == 0 {
        return false;
      }
      if counter > high {
        var diff := counter - high;
        ghost var was := bitmap[..];
        ShiftLeft(diff);
        high := counter;
        SetBit(0);
        Advance(was, bitmap[..], old(high), counter, seen);
        seen := seen + {counter};
        return true;
      }
      var age := high - counter;
      if age >= WINDOW {
        return false;
      }
      var known := TestBit(age);
      if known {
        return false;
      }
      ghost var was := bitmap[..];
      SetBit(age);
      Fill(was, bitmap[..], high, age, seen);
      seen := seen + {counter};
      return true;
    }
  }

  /**
   The two implementations side by side: on every stream of counters they give the same
   answers, and those are the answers of the specification.
   */
  method MatchesTheShiftingReference(cs: seq<U64>) returns (ring: seq<bool>, shifting: seq<bool>)
    ensures ring == shifting == Verdicts(cs)
  {
    var w := new ReplayWindowRing.ReplayWindow();
    var s := new Shifting();
    assert w.bitmap != s.bitmap;
    ring, shifting := [], [];
    for i := 0 to |cs|
      invariant w.Valid() && s.Valid()
      invariant w.Meaning() == s.Meaning() == Run(cs[..i])
      invariant ring == shifting == Verdicts(cs[..i])
    {
      assert cs[..i + 1][..i] == cs[..i];
      var rejected := w.WouldReject(cs[i]);
      var got := false;
      if !rejected {
        got := w.Commit(cs[i]);
      }
      var want := s.Accept(cs[i]);
      ring, shifting := ring + [got], shifting + [want];
    }
    assert cs[..|cs|] == cs;
  }
}
