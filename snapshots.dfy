/** The step recorder: a snapshot is an independent copy of the array taken at the
    moment of recording, plus the highlighted and the eliminated indices.
    A driver's run is the sequence of snapshots it appends, in replay order. */
module Snapshots {

  /** `SortStep`: `vals` is a value (a copy), so later writes to the live array
      never reach a snapshot that was already recorded. */
  datatype Step = Step(vals: seq<int>, active: seq<int>, elim: seq<int>)

  /** What a recursive driver leaves behind: the array and the steps it recorded. */
  datatype Run = Run(vals: seq<int>, steps: seq<Step>)

  /** `newStep(arr, active...)`: the eliminated list is always empty. */
  function NewStep(vals: seq<int>, active: seq<int>): Step {
    Step(vals, active, [])
  }

  /** Every index in `idx` lies in `[lo, hi)`. */
  predicate Within(idx: seq<int>, lo: int, hi: int) {
    forall k :: 0 <= k < |idx| ==> lo <= idx[k] < hi
  }

  /** A step that copies an array of length `n`, highlights only indices in
      `[lo, hi)` and eliminates nothing. */
  predicate Fits(st: Step, n: int, lo: int, hi: int) {
    |st.vals| == n && Within(st.active, lo, hi) && st.elim == []
  }

  /** Every step of the run fits `n` and `[lo, hi)`. */
  predicate Logged(steps: seq<Step>, n: int, lo: int, hi: int) {
    forall k :: 0 <= k < |steps| ==> Fits(steps[k], n, lo, hi)
  }

  /** Every step of the run copies a rearrangement of `orig`. */
  predicate Rearranged(steps: seq<Step>, orig: seq<int>) {
    forall k :: 0 <= k < |steps| ==> multiset(steps[k].vals) == multiset(orig)
  }

  /** The run opens with an un-highlighted copy of `before` and closes with one of `after`. */
  predicate Bracketed(steps: seq<Step>, before: seq<int>, after: seq<int>) {
    |steps| >= 2 && steps[0] == Step(before, [], []) && steps[|steps| - 1] == Step(after, [], [])
  }

  /** `0, 1, ..., n - 1`: the highlight of a bogo shuffle step. */
  function AllIndices(n: nat): (r: seq<int>)
    ensures |r| == n && forall k :: 0 <= k < n ==> r[k] == k
  {
    if n == 0 then [] else AllIndices(n - 1) + [n - 1]
  }

  /** Recording `y` and then `z` after `x` is recording `y + z` after it. */
  lemma AppendAssoc(x: seq<Step>, y: seq<Step>, z: seq<Step>)
    ensures (x + y) + z == x + (y + z)
  {
  }

  /** Recording one more fitting step keeps a run logged. */
  lemma LoggedSnoc(steps: seq<Step>, st: Step, n: int, lo: int, hi: int)
    requires Logged(steps, n, lo, hi) && Fits(st, n, lo, hi)
    ensures Logged(steps + [st], n, lo, hi)
  {
  }

  lemma RearrangedSnoc(steps: seq<Step>, st: Step, orig: seq<int>)
    requires Rearranged(steps, orig) && multiset(st.vals) == multiset(orig)
    ensures Rearranged(steps + [st], orig)
  {
  }

  lemma LoggedAppend(s: seq<Step>, t: seq<Step>, n: int, lo: int, hi: int)
    requires Logged(s, n, lo, hi) && Logged(t, n, lo, hi)
    ensures Logged(s + t, n, lo, hi)
  {
  }

  lemma RearrangedAppend(s: seq<Step>, t: seq<Step>, orig: seq<int>)
    requires Rearranged(s, orig) && Rearranged(t, orig)
    ensures Rearranged(s + t, orig)
  {
  }

  /** Highlights inside `[lo, hi)` are also inside any wider range. */
  lemma LoggedWiden(s: seq<Step>, n: int, lo: int, hi: int, lo': int, hi': int)
    requires Logged(s, n, lo, hi) && lo' <= lo && hi <= hi'
    ensures Logged(s, n, lo', hi')
  {
  }

  /** A logged run between two fitting steps is logged. */
  lemma BracketLogged(first: Step, mid: seq<Step>, last: Step, n: int)
    requires Logged(mid, n, 0, n) && Fits(first, n, 0, n) && Fits(last, n, 0, n)
    ensures Logged([first] + mid + [last], n, 0, n)
  {
    LoggedSnoc([], first, n, 0, n);
    assert [] + [first] == [first];
    LoggedAppend([first], mid, n, 0, n);
    LoggedSnoc([first] + mid, last, n, 0, n);
  }

  /** A rearranged run between two rearrangements of `orig` is rearranged. */
  lemma BracketRearranged(first: Step, mid: seq<Step>, last: Step, orig: seq<int>)
    requires Rearranged(mid, orig) && multiset(first.vals) == multiset(orig) && multiset(last.vals) == multiset(orig)
    ensures Rearranged([first] + mid + [last], orig)
  {
    RearrangedSnoc([], first, orig);
    assert [] + [first] == [first];
    RearrangedAppend([first], mid, orig);
    RearrangedSnoc([first] + mid, last, orig);
  }
}
