/** What holds after a run because a step brought it about and no later step undid it. */
module Histories {
  /** Something happened at step `from` - or at the start, if that is -1 - and nothing undid it since. */
  ghost predicate Lasts(from: int, n: nat, done: nat -> bool, undone: nat -> bool, start: bool) {
    && -1 <= from < n && (if from == -1 then start else done(from))
    && forall j: nat :: from < j < n ==> !undone(j)
  }

  ghost predicate Holds(n: nat, done: nat -> bool, undone: nat -> bool, start: bool) {
    exists from :: Lasts(from, n, done, undone, start)
  }

  /** One step: it holds afterwards exactly when this step did it, or it held and this step did not undo it. */
  lemma HoldsStep(n: nat, done: nat -> bool, undone: nat -> bool, start: bool)
    ensures Holds(n + 1, done, undone, start) <==> done(n) || (Holds(n, done, undone, start) && !undone(n))
  {
    if done(n) {
      assert Lasts(n, n + 1, done, undone, start);
    }
    if Holds(n, done, undone, start) && !undone(n) {
      var from :| Lasts(from, n, done, undone, start);
      assert Lasts(from, n + 1, done, undone, start);
    }
    if Holds(n + 1, done, undone, start) && !done(n) {
      var from :| Lasts(from, n + 1, done, undone, start);
      assert Lasts(from, n, done, undone, start);
    }
  }

  /** What holds although it was undone at `i` was done again since. */
  lemma DoneSince(n: nat, done: nat -> bool, undone: nat -> bool, start: bool, i: nat) returns (j: nat)
    requires Holds(n, done, undone, start) && i < n && undone(i) && !done(i)
    ensures i < j < n && done(j)
  {
    var from :| Lasts(from, n, done, undone, start);
    j := from;
  }

  lemma HoldsStart(done: nat -> bool, undone: nat -> bool, start: bool)
    ensures Holds(0, done, undone, start) <==> start
  {
    if start {
      assert Lasts(-1, 0, done, undone, start);
    }
  }
}
