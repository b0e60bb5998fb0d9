/**
 The 64-bit words of the replay bitmaps.

 A word is the set of positions of its one bits: `|`, `& !` and the two shifts are
 then union, difference and translation of that set cut off at the word's ends.
 */
module Words {

  /** An unsigned 64-bit integer. */
  type U64 = x: nat | x < 0x1_0000_0000_0000_0000

  type Word = w: set<nat> | forall i :: i in w ==> i < 64

  function Mask(i: nat): Word
    requires i < 64
  {
    {i}
  }

  function Shl(w: Word, s: nat): Word {
    set k | k in w && k + s < 64 :: k + s
  }

  function Shr(w: Word, s: nat): Word {
    set k | k in w && s <= k :: k - s
  }

  const BLOCKS: nat := 128
  const WINDOW: nat := 8192

  /** Bit `p` of a whole bitmap. */
  predicate Slot(bitmap: seq<Word>, p: nat)
    requires |bitmap| == BLOCKS && p < WINDOW
  {
    p % 64 in bitmap[p / 64]
  }

  lemma SetSlot(bitmap: seq<Word>, p: nat, q: nat)
    requires |bitmap| == BLOCKS && p < WINDOW && q < WINDOW
    ensures Slot(bitmap[p / 64 := bitmap[p / 64] + Mask(p % 64)], q) == (p == q || Slot(bitmap, q))
    ensures Slot(bitmap[p / 64 := bitmap[p / 64] - Mask(p % 64)], q) == (p != q && Slot(bitmap, q))
  {}
}
