/** What the replay window promises, and the ring bitmap that keeps the promise. */
module ReplaySpec {
  import opened Words

  /** The window as its meaning: the highest counter and every counter accepted so far. */
  datatype Window = Window(high: nat, seen: set<nat>)

  const EMPTY := Window(0, {})

  predicate Admits(w: Window, c: nat) {
    c != 0 && (c > w.high || (w.high - c < WINDOW && c !in w.seen))
  }

  function Admit(w: Window, c: nat): Window {
    if Admits(w, c) then Window(if c > w.high then c else w.high, w.seen + {c}) else w
  }

  function Run(cs: seq<nat>): Window {
    if cs == [] then EMPTY else Admit(Run(cs[..|cs| - 1]), cs[|cs| - 1])
  }

  /** The verdict on the last counter of `cs`, all earlier ones having been presented in order. */
  predicate Verdict(cs: seq<nat>)
    requires cs != []
  {
    Admits(Run(cs[..|cs| - 1]), cs[|cs| - 1])
  }

  function Verdicts(cs: seq<nat>): (vs: seq<bool>)
    ensures |vs| == |cs|
  {
    if cs == [] then [] else Verdicts(cs[..|cs| - 1]) + [Verdict(cs)]
  }

  function Max(cs: seq<nat>): (m: nat)
    ensures forall c :: c in cs ==> c <= m
    ensures m == 0 || m in cs
  {
    if cs == [] then 0
    else
      var m := Max(cs[..|cs| - 1]);
      assert forall c :: c in cs ==> c in cs[..|cs| - 1] || c == cs[|cs| - 1];
      if cs[|cs| - 1] > m then cs[|cs| - 1] else m
  }

  lemma {:induction false} RunShape(cs: seq<nat>)
    ensures Run(cs).high == Max(cs)
    ensures forall c :: c in Run(cs).seen ==> c in cs && 1 <= c <= Run(cs).high
    ensures forall c :: c in cs && c != 0 && Max(cs) - c < WINDOW ==> c in Run(cs).seen
  {
    if cs != [] {
      var init := cs[..|cs| - 1];
      RunShape(init);
      assert cs == init + [cs[|cs| - 1]];
    }
  }

  /**
   The verdict on a counter is decided by the raw arrivals alone, accepted or not: it is
   accepted exactly when it is nonzero, was never presented before, and lies within the
   window below the largest counter ever presented.
   */
  lemma VerdictFromArrivals(cs: seq<nat>, c: nat)
    ensures Verdict(cs + [c]) <==> c != 0 && c !in cs && Max(cs) < c + WINDOW
  {
    assert (cs + [c])[..|cs|] == cs;
    RunShape(cs);
  }

  lemma {:induction false} VerdictsAt(cs: seq<nat>, i: nat)
    requires i < |cs|
    ensures Verdicts(cs)[i] == Verdict(cs[..i] + [cs[i]])
  {
    if i == |cs| - 1 {
      assert cs[..i] + [cs[i]] == cs;
    } else {
      VerdictsAt(cs[..|cs| - 1], i);
      assert cs[..|cs| - 1][..i] == cs[..i];
    }
  }

  /** No counter is accepted twice, whatever else arrives in between. */
  lemma AcceptedAtMostOnce(cs: seq<nat>, i: nat, j: nat)
    requires i < j < |cs| && cs[i] == cs[j]
    ensures !Verdicts(cs)[j]
  {
    VerdictsAt(cs, j);
    VerdictFromArrivals(cs[..j], cs[j]);
    assert cs[i] == cs[..j][i];
  }
}

module ReplayWindowRing {
  import opened Words
  import opened ReplaySpec

  /** Within the window below `high`, exactly the slots of seen counters are set. */
  ghost predicate Agrees(bitmap: seq<Word>, high: nat, seen: set<nat>)
    requires |bitmap| == BLOCKS
  {
    forall c: nat :: 1 <= c <= high && high - c < WINDOW ==> (Slot(bitmap, c % WINDOW) <==> c in seen)
  }

  /** Sliding the window up to `counter`: below it the new bitmap still tells seen from unseen. */
  lemma Slide(was: seq<Word>, now: seq<Word>, high: nat, counter: nat, seen: set<nat>, d: nat)
    requires |was| == BLOCKS && |now| == BLOCKS && Agrees(was, high, seen) && high < counter
    requires forall c :: c in seen ==> 1 <= c <= high
    requires counter - high >= WINDOW ==> forall p: nat :: p < WINDOW ==> !Slot(now, p)
    requires counter - high < WINDOW ==> Cleared(was, now, high + 1, counter)
    requires 1 <= d < counter && counter - d < WINDOW
    ensures Slot(now, d % WINDOW) <==> d in seen
  {}

  /** `now` is `was` with the slots of `[from, to)` emptied and every other slot kept. */
  ghost predicate Cleared(was: seq<Word>, now: seq<Word>, from: nat, to: nat)
    requires |was| == BLOCKS && |now| == BLOCKS
  {
    && (forall c: nat :: from <= c < to ==> !Slot(now, c % WINDOW))
    && (forall p: nat :: p < WINDOW && (forall c: nat :: from <= c < to ==> c % WINDOW != p) ==>
          Slot(now, p) == Slot(was, p))
  }

  /** `now` is `was` with the slot of `counter` set. */
  ghost predicate Marked(was: seq<Word>, now: seq<Word>, counter: nat)
    requires |was| == BLOCKS && |now| == BLOCKS
  {
    forall p: nat :: p < WINDOW ==> Slot(now, p) == (p == counter % WINDOW || Slot(was, p))
  }

  lemma MarkKeeps(was: seq<Word>, now: seq<Word>, high: nat, counter: nat, seen: set<nat>)
    requires |was| == BLOCKS && |now| == BLOCKS && Marked(was, now, counter)
    requires 1 <= counter <= high && high - counter < WINDOW
    requires forall d: nat :: 1 <= d <= high && high - d < WINDOW && d != counter ==>
               (Slot(was, d % WINDOW) <==> d in seen)
    ensures Agrees(now, high, seen + {counter})
  {}

  class ReplayWindow {
    var high: U64
    const bitmap: array<Word>
    /** Every counter committed so far; only the bitmap and `high` exist at run time. */
    ghost var seen: set<nat>

    ghost predicate Valid()
      reads this, bitmap
    {
      && bitmap.Length == BLOCKS
      && (forall c :: c in seen ==> 1 <= c <= high)
      && Agrees(bitmap[..], high, seen)
    }

    ghost function Meaning(): Window
      reads this
    {
      Window(high, seen)
    }

    constructor ()
      ensures Valid() && Meaning() == EMPTY && fresh(bitmap)
    {
      high := 0;
      bitmap := new Word[BLOCKS](_ => {});
      seen := {};
    }

    static function Index(counter: U64): (r: (nat, Word))
      ensures r.0 < BLOCKS
    {
      var bit := counter % WINDOW;
      (bit / 64, Mask(bit % 64))
    }

    predicate IsSet(counter: U64)
      requires bitmap.Length == BLOCKS
      reads this, bitmap
    {
      var (block, mask) := Index(counter);
      bitmap[block] * mask != {}
    }

    method WouldReject(counter: U64) returns (r: bool)
      requires Valid()
      ensures r == !Admits(Meaning(), counter)
    {
      if counter == 0 {
        return true;
      }
      if counter > high {
        return false;
      }
      if high - counter >= WINDOW {
        return true;
      }
      assert Slot(bitmap[..], counter % WINDOW) ==>
          counter % WINDOW % 64 in bitmap[Index(counter).0] * Index(counter).1;
      r := IsSet(counter);
    }

    method Commit(counter: U64) returns (r: bool)
      requires Valid()
      modifies this, bitmap
      ensures Valid()
      ensures r == Admits(old(Meaning()), counter)
      ensures Meaning() == Admit(old(Meaning()), counter)
    {
      var rejected := WouldReject(counter);
      if rejected {
        return false;
      }
      ghost var was := bitmap[..];
      if counter > high {
        if counter - high >= WINDOW {
          forall i | 0 <= i < bitmap.Length {
            bitmap[i] := {};
          }
        } else {
          var clearFrom := if high + 1 > counter - (WINDOW - 1) then high + 1 else counter - (WINDOW - 1);
          ClearSlots(clearFrom, counter);
        }
        forall d: nat | 1 <= d < counter && counter - d < WINDOW
          ensures Slot(bitmap[..], d % WINDOW) <==> d in seen
        {
          Slide(was, bitmap[..], high, counter, seen, d);
        }
        high := counter;
      }
      ghost var slid := bitmap[..];
      MarkSlot(counter);
      MarkKeeps(slid, bitmap[..], high, counter, seen);
      seen := seen + {counter};
      return true;
    }

    method ClearSlots(from: U64, to: U64)
      requires bitmap.Length == BLOCKS && from <= to
      modifies bitmap
      ensures Cleared(old(bitmap[..]), bitmap[..], from, to)
    {
      for c := from to to
        invariant forall d: nat :: from <= d < c ==> !Slot(bitmap[..], d % WINDOW)
        invariant forall p: nat :: p < WINDOW && (forall d: nat :: from <= d < to ==> d % WINDOW != p) ==>
                    Slot(bitmap[..], p) == Slot(old(bitmap[..]), p)
      {
        var (block, mask) := Index(c);
        ghost var before := bitmap[..];
        bitmap[block] := bitmap[block] - mask;
        assert bitmap[..] == before[block := before[block] - mask];
        forall p: nat | p < WINDOW
          ensures Slot(bitmap[..], p) == (c % WINDOW != p && Slot(before, p))
        {
          SetSlot(before, c % WINDOW, p);
        }
      }
    }

    method MarkSlot(counter: U64)
      requires bitmap.Length == BLOCKS
      modifies bitmap
      ensures Marked(old(bitmap[..]), bitmap[..], counter)
    {
      var (block, mask) := Index(counter);
      ghost var before := bitmap[..];
      bitmap[block] := bitmap[block] + mask;
      assert bitmap[..] == before[block := before[block] + mask];
      forall p: nat | p < WINDOW
        ensures Slot(bitmap[..], p) == (p == counter % WINDOW || Slot(before, p))
      {
        SetSlot(before, counter % WINDOW, p);
      }
    }
  }
}
