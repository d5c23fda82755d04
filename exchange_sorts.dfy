/** Bubble sort and selection sort (`bubbleSort`, `selectionSort`; the
    JavaScript drivers of the same names do exactly the same). Each driver is
    tied to a recursive definition of the array it leaves and the steps it
    records; what the drivers promise is proved about those definitions. */
module ExchangeSorts {
  import opened Snapshots
  import opened Ordering

  // ---------------------------------------------------------------- bubble sort

  /** The array after comparing `(j, j + 1)` and swapping when out of order. */
  function CompareStep(s: seq<int>, j: int): (r: seq<int>)
    requires 0 <= j && j + 1 < |s|
    ensures |r| == |s|
  {
    if s[j] > s[j + 1] then Swapped(s, j, j + 1) else s
  }

  /** The steps recorded for that comparison: the pair before the test, and
      the pair again after a swap. */
  function CompareRecords(s: seq<int>, j: int): seq<Step>
    requires 0 <= j && j + 1 < |s|
  {
    [NewStep(s, [j, j + 1])] + if s[j] > s[j + 1] then [NewStep(Swapped(s, j, j + 1), [j, j + 1])] else []
  }

  /** The comparisons `j, j + 1, ..., m - 2` of one pass over `s[..m]`: the array left. */
  function PassVals(s: seq<int>, m: int, j: nat): (r: seq<int>)
    requires m <= |s|
    ensures |r| == |s|
    decreases m - j
  {
    if j + 1 >= m then s else PassVals(CompareStep(s, j), m, j + 1)
  }

  /** ... and the steps they record. */
  function PassSteps(s: seq<int>, m: int, j: nat): seq<Step>
    requires m <= |s|
    decreases m - j
  {
    if j + 1 >= m then [] else CompareRecords(s, j) + PassSteps(CompareStep(s, j), m, j + 1)
  }

  /** The passes `i, i + 1, ..., |s| - 2` of bubble sort: the array left. */
  function BubbleVals(s: seq<int>, i: nat): (r: seq<int>)
    ensures |r| == |s|
    decreases |s| - i
  {
    if i + 1 >= |s| then s else BubbleVals(PassVals(s, |s| - i, 0), i + 1)
  }

  /** ... and the steps they record. */
  function BubbleSteps(s: seq<int>, i: nat): seq<Step>
    decreases |s| - i
  {
    if i + 1 >= |s| then [] else PassSteps(s, |s| - i, 0) + BubbleSteps(PassVals(s, |s| - i, 0), i + 1)
  }

  /** Bubble sort: each compared pair `(j, j + 1)` is recorded before the test,
      and once more after a swap. A swap happens once per inversion of the
      input, so the run has `2 + n(n-1)/2 + Inversions(input)` steps. */
  method BubbleSort(a: array<int>) returns (steps: seq<Step>)
    modifies a
    ensures a[..] == BubbleVals(old(a[..]), 0)
    ensures steps == BubbleRun(old(a[..]))
    ensures Sorted(a[..]) && multiset(a[..]) == multiset(old(a[..]))
    ensures Bracketed(steps, old(a[..]), a[..]) && Logged(steps, a.Length, 0, a.Length) && Rearranged(steps, old(a[..]))
    ensures |steps| == 2 + a.Length * (a.Length - 1) / 2 + Inversions(old(a[..]))
  {
    ghost var orig := a[..];
    steps := [NewStep(a[..], [])];
    var passes := BubblePasses(a);
    steps := steps + passes + [NewStep(a[..], [])];
    BubbleCorrect(orig);
  }

  /** The whole run of bubble sort on `s`: the initial copy, the passes, the final copy. */
  function BubbleRun(s: seq<int>): seq<Step> {
    [NewStep(s, [])] + BubbleSteps(s, 0) + [NewStep(BubbleVals(s, 0), [])]
  }

  /** Bubble sort leaves a sorted rearrangement of its input, and its run is
      bracketed by the input and the result, records only rearrangements of the
      input, and has `2 + |s| * (|s| - 1) / 2 + Inversions(s)` steps. */
  lemma BubbleCorrect(s: seq<int>)
    ensures Sorted(BubbleVals(s, 0)) && multiset(BubbleVals(s, 0)) == multiset(s)
    ensures Bracketed(BubbleRun(s), s, BubbleVals(s, 0)) && Logged(BubbleRun(s), |s|, 0, |s|) && Rearranged(BubbleRun(s), s)
    ensures |BubbleRun(s)| == 2 + |s| * (|s| - 1) / 2 + Inversions(s)
  {
    BubbleSorts(s, 0);
    BubblePerm(s, 0);
    BubbleLogged(s, s, 0);
    BracketLogged(NewStep(s, []), BubbleSteps(s, 0), NewStep(BubbleVals(s, 0), []), |s|);
    BracketRearranged(NewStep(s, []), BubbleSteps(s, 0), NewStep(BubbleVals(s, 0), []), s);
    BubbleCount(s, 0);
    SortedHasNoInversions(BubbleVals(s, 0));
    AllPassesCompare(|s|);
  }

  /** The outer loop of bubble sort: passes `0 .. n - 2`. */
  method BubblePasses(a: array<int>) returns (steps: seq<Step>)
    modifies a
    ensures a[..] == BubbleVals(old(a[..]), 0) && steps == BubbleSteps(old(a[..]), 0)
  {
    var n := a.Length;
    steps := [];
    var i := 0;
    while i < n - 1
      invariant 0 <= i <= n
      invariant BubbleVals(a[..], i) == BubbleVals(old(a[..]), 0)
      invariant steps + BubbleSteps(a[..], i) == BubbleSteps(old(a[..]), 0)
    {
      ghost var before := a[..];
      var pass := BubblePass(a, n - i);
      assert BubbleSteps(before, i) == pass + BubbleSteps(a[..], i + 1);
      assert steps + pass + BubbleSteps(a[..], i + 1) == steps + BubbleSteps(before, i);
      steps := steps + pass;
      i := i + 1;
    }
  }

  /** One pass of bubble sort over `a[..m]` (the inner loop, `j` from 0 to `m - 2`). */
  method BubblePass(a: array<int>, m: int) returns (pass: seq<Step>)
    requires 0 < m <= a.Length
    modifies a
    ensures a[..] == PassVals(old(a[..]), m, 0) && pass == PassSteps(old(a[..]), m, 0)
  {
    pass := [];
    var j := 0;
    while j < m - 1
      invariant 0 <= j <= m - 1
      invariant PassVals(a[..], m, j) == PassVals(old(a[..]), m, 0)
      invariant pass + PassSteps(a[..], m, j) == PassSteps(old(a[..]), m, 0)
    {
      ghost var before := a[..];
      var recorded := CompareAdjacent(a, j);
      assert pass + recorded + PassSteps(a[..], m, j + 1) == pass + PassSteps(before, m, j);
      pass := pass + recorded;
      j := j + 1;
    }
  }

  /** The body of the inner loop: record the pair, swap it when out of order,
      and record it again after a swap. */
  method CompareAdjacent(a: array<int>, j: int) returns (recorded: seq<Step>)
    requires 0 <= j && j + 1 < a.Length
    modifies a
    ensures a[..] == CompareStep(old(a[..]), j)
    ensures recorded == CompareRecords(old(a[..]), j)
  {
    recorded := [NewStep(a[..], [j, j + 1])];
    if a[j] > a[j + 1] {
      Swap(a, j, j + 1);
      recorded := recorded + [NewStep(a[..], [j, j + 1])];
    }
  }

  /** The elements from `m` on are in order and none is below an element before `m`. */
  predicate Settled(s: seq<int>, m: int) {
    && (forall p, q :: 0 <= m <= p < q < |s| ==> s[p] <= s[q])
    && (forall p, q :: 0 <= p < m <= q < |s| ==> s[p] <= s[q])
  }

  /** No element before `j` exceeds `s[j]`. */
  predicate MaxAt(s: seq<int>, j: int)
    requires 0 <= j < |s|
  {
    forall p :: 0 <= p < j ==> s[p] <= s[j]
  }

  /** Comparing `(j, j + 1)` and swapping when out of order carries the largest
      element seen so far one place right and disturbs nothing settled. */
  lemma BubbleCompare(s: seq<int>, m: int, j: int)
    requires 0 <= j && j + 1 < m <= |s|
    requires Settled(s, m) && MaxAt(s, j)
    ensures Settled(CompareStep(s, j), m) && MaxAt(CompareStep(s, j), j + 1)
  {
  }

  /** A pass over `s[..m]` settles position `m - 1`. */
  lemma {:induction false} PassSettles(s: seq<int>, m: int, j: nat)
    requires j < m <= |s| && Settled(s, m) && MaxAt(s, j)
    ensures Settled(PassVals(s, m, j), m - 1)
    decreases m - j
  {
    if j + 1 < m {
      BubbleCompare(s, m, j);
      PassSettles(CompareStep(s, j), m, j + 1);
    }
  }

  /** A pass only rearranges. */
  lemma {:induction false} PassPerm(s: seq<int>, m: int, j: nat)
    requires m <= |s|
    ensures multiset(PassVals(s, m, j)) == multiset(s)
    decreases m - j
  {
    if j + 1 < m {
      CompareStepPerm(s, j);
      PassPerm(CompareStep(s, j), m, j + 1);
    }
  }

  /** One comparison keeps the multiset. */
  lemma CompareStepPerm(s: seq<int>, j: int)
    requires 0 <= j && j + 1 < |s|
    ensures multiset(CompareStep(s, j)) == multiset(s)
  {
    if s[j] > s[j + 1] { SwappedPerm(s, j, j + 1); }
  }

  /** Each comparison records one step, and each swap one more step and one
      inversion fewer. */
  lemma {:induction false} PassCount(s: seq<int>, m: int, j: nat)
    requires j < m <= |s|
    ensures |PassSteps(s, m, j)| + Inversions(PassVals(s, m, j)) == (m - 1 - j) + Inversions(s)
    decreases m - j
  {
    if j + 1 < m {
      if s[j] > s[j + 1] { AdjacentSwapRemovesInversion(s, j); }
      PassCount(CompareStep(s, j), m, j + 1);
    }
  }

  /** The steps of one comparison copy a rearrangement of `orig` and highlight a pair inside the array. */
  lemma CompareLogged(s: seq<int>, orig: seq<int>, j: nat)
    requires j + 1 < |s| == |orig| && multiset(s) == multiset(orig)
    ensures Logged(CompareRecords(s, j), |s|, 0, |s|) && Rearranged(CompareRecords(s, j), orig)
    ensures multiset(CompareStep(s, j)) == multiset(orig)
  {
    LoggedSnoc([], NewStep(s, [j, j + 1]), |s|, 0, |s|);
    RearrangedSnoc([], NewStep(s, [j, j + 1]), orig);
    if s[j] > s[j + 1] {
      SwappedPerm(s, j, j + 1);
      LoggedSnoc([NewStep(s, [j, j + 1])], NewStep(Swapped(s, j, j + 1), [j, j + 1]), |s|, 0, |s|);
      RearrangedSnoc([NewStep(s, [j, j + 1])], NewStep(Swapped(s, j, j + 1), [j, j + 1]), orig);
    }
  }

  /** Every step of a pass copies a rearrangement of `orig`. */
  lemma {:induction false} PassLogged(s: seq<int>, orig: seq<int>, m: int, j: nat)
    requires m <= |s| == |orig| && multiset(s) == multiset(orig)
    ensures Logged(PassSteps(s, m, j), |s|, 0, |s|) && Rearranged(PassSteps(s, m, j), orig)
    decreases m - j
  {
    if j + 1 < m {
      CompareLogged(s, orig, j);
      PassLogged(CompareStep(s, j), orig, m, j + 1);
      LoggedAppend(CompareRecords(s, j), PassSteps(CompareStep(s, j), m, j + 1), |s|, 0, |s|);
      RearrangedAppend(CompareRecords(s, j), PassSteps(CompareStep(s, j), m, j + 1), orig);
    }
  }

  /** Passes `i ..` leave a settled suffix in order, so the whole array in order. */
  lemma {:induction false} BubbleSorts(s: seq<int>, i: nat)
    requires i <= |s| && Settled(s, |s| - i)
    ensures Sorted(BubbleVals(s, i))
    decreases |s| - i
  {
    if i + 1 < |s| {
      var m := |s| - i;
      assert MaxAt(s, 0);
      PassSettles(s, m, 0);
      BubbleSorts(PassVals(s, m, 0), i + 1);
    }
  }

  lemma {:induction false} BubblePerm(s: seq<int>, i: nat)
    ensures multiset(BubbleVals(s, i)) == multiset(s)
    decreases |s| - i
  {
    if i + 1 < |s| {
      PassPerm(s, |s| - i, 0);
      BubblePerm(PassVals(s, |s| - i, 0), i + 1);
    }
  }

  /** Passes `i ..` record one step per comparison plus one per inversion they remove. */
  lemma {:induction false} BubbleCount(s: seq<int>, i: nat)
    requires i <= |s|
    ensures |BubbleSteps(s, i)| + Inversions(BubbleVals(s, i)) + Comparisons(|s|, i)
         == Comparisons(|s|, Passes(|s|, i)) + Inversions(s)
    decreases |s| - i
  {
    if i + 1 < |s| {
      var t := PassVals(s, |s| - i, 0);
      PassCount(s, |s| - i, 0);
      BubbleCount(t, i + 1);
      assert |BubbleSteps(s, i)| == |PassSteps(s, |s| - i, 0)| + |BubbleSteps(t, i + 1)|;
      assert Comparisons(|s|, i + 1) == Comparisons(|s|, i) + (|s| - i - 1);
      assert Passes(|s|, i + 1) == Passes(|s|, i);
    }
  }

  /** The number of passes done once pass `i` is reached: `n - 1`, or `i` when past it. */
  function Passes(n: int, i: nat): nat {
    if i + 1 >= n then i else n - 1
  }

  lemma {:induction false} BubbleLogged(s: seq<int>, orig: seq<int>, i: nat)
    requires |s| == |orig| && multiset(s) == multiset(orig)
    ensures Logged(BubbleSteps(s, i), |s|, 0, |s|) && Rearranged(BubbleSteps(s, i), orig)
    decreases |s| - i
  {
    if i + 1 < |s| {
      var m := |s| - i;
      PassLogged(s, orig, m, 0);
      PassPerm(s, m, 0);
      BubbleLogged(PassVals(s, m, 0), orig, i + 1);
      LoggedAppend(PassSteps(s, m, 0), BubbleSteps(PassVals(s, m, 0), i + 1), |s|, 0, |s|);
      RearrangedAppend(PassSteps(s, m, 0), BubbleSteps(PassVals(s, m, 0), i + 1), orig);
    }
  }

  // ------------------------------------------------------------- selection sort

  /** The index of the minimum the scan `j .. |s| - 1` settles on, starting from
      `mi`; only a strictly smaller element replaces the current minimum. */
  function ScanMin(s: seq<int>, j: nat, mi: nat): nat
    requires mi < |s|
    decreases |s| - j
  {
    if j >= |s| then mi else ScanMin(s, j + 1, if s[j] < s[mi] then j else mi)
  }

  /** The steps of that scan: `(i, j, minIndex)` for every `j`, before its test. */
  function ScanSteps(s: seq<int>, i: int, j: nat, mi: nat): seq<Step>
    requires mi < |s|
    decreases |s| - j
  {
    if j >= |s| then [] else [NewStep(s, [i, j, mi])] + ScanSteps(s, i, j + 1, if s[j] < s[mi] then j else mi)
  }

  /** The array after pass `i`: `s[i]` swapped with the minimum of `s[i..]`. */
  function SelectVals(s: seq<int>, i: nat): (r: seq<int>)
    requires i < |s|
    ensures |r| == |s|
  {
    ScanMinBounds(s, i + 1, i);
    Swapped(s, i, ScanMin(s, i + 1, i))
  }

  /** The passes `i, i + 1, ..., |s| - 2` of selection sort: the array left. */
  function SelectionVals(s: seq<int>, i: nat): (r: seq<int>)
    ensures |r| == |s|
    decreases |s| - i
  {
    if i + 1 >= |s| then s else SelectionVals(SelectVals(s, i), i + 1)
  }

  /** ... and the steps they record: the scan, then the swap with `(i, minIndex)`. */
  function SelectionSteps(s: seq<int>, i: nat): seq<Step>
    decreases |s| - i
  {
    if i + 1 >= |s| then []
    else ScanSteps(s, i, i + 1, i) + [NewStep(SelectVals(s, i), [i, ScanMin(s, i + 1, i)])]
         + SelectionSteps(SelectVals(s, i), i + 1)
  }

  /** Selection sort: every scanned `j` is recorded with `i` and the running
      minimum before the test; the swap of `i` with the minimum is recorded once
      per pass, even when the minimum is already at `i`. */
  method SelectionSort(a: array<int>) returns (steps: seq<Step>)
    modifies a
    ensures a[..] == SelectionVals(old(a[..]), 0)
    ensures steps == SelectionRun(old(a[..]))
    ensures Sorted(a[..]) && multiset(a[..]) == multiset(old(a[..]))
    ensures Bracketed(steps, old(a[..]), a[..]) && Logged(steps, a.Length, 0, a.Length) && Rearranged(steps, old(a[..]))
    ensures |steps| == 2 + a.Length * (a.Length - 1) / 2 + (if a.Length == 0 then 0 else a.Length - 1)
  {
    ghost var orig := a[..];
    steps := [NewStep(a[..], [])];
    var passes := SelectionPasses(a);
    steps := steps + passes + [NewStep(a[..], [])];
    SelectionCorrect(orig);
  }

  /** The whole run of selection sort on `s`: the initial copy, the passes, the final copy. */
  function SelectionRun(s: seq<int>): seq<Step> {
    [NewStep(s, [])] + SelectionSteps(s, 0) + [NewStep(SelectionVals(s, 0), [])]
  }

  /** Selection sort leaves a sorted rearrangement of its input, and its run is
      bracketed by the input and the result, records only rearrangements of the
      input, and has `2 + |s| * (|s| - 1) / 2 + (if |s| == 0 then 0 else |s| - 1)` steps. */
  lemma SelectionCorrect(s: seq<int>)
    ensures Sorted(SelectionVals(s, 0)) && multiset(SelectionVals(s, 0)) == multiset(s)
    ensures Bracketed(SelectionRun(s), s, SelectionVals(s, 0)) && Logged(SelectionRun(s), |s|, 0, |s|) && Rearranged(SelectionRun(s), s)
    ensures |SelectionRun(s)| == 2 + |s| * (|s| - 1) / 2 + (if |s| == 0 then 0 else |s| - 1)
  {
    SelectionSorts(s, 0);
    SelectionPerm(s, 0);
    SelectionLogged(s, s, 0);
    BracketLogged(NewStep(s, []), SelectionSteps(s, 0), NewStep(SelectionVals(s, 0), []), |s|);
    BracketRearranged(NewStep(s, []), SelectionSteps(s, 0), NewStep(SelectionVals(s, 0), []), s);
    SelectionCount(s, 0);
    if |s| > 0 {
      SelectionStepCountClosedForm(|s|, 0);
      assert |s| * (|s| + 1) == |s| * (|s| - 1) + 2 * |s|;
    }
  }

  /** The outer loop of selection sort: passes `0 .. n - 2`. */
  method SelectionPasses(a: array<int>) returns (steps: seq<Step>)
    modifies a
    ensures a[..] == SelectionVals(old(a[..]), 0) && steps == SelectionSteps(old(a[..]), 0)
  {
    var n := a.Length;
    steps := [];
    var i := 0;
    while i < n - 1
      invariant 0 <= i <= n
      invariant SelectionVals(a[..], i) == SelectionVals(old(a[..]), 0)
      invariant steps + SelectionSteps(a[..], i) == SelectionSteps(old(a[..]), 0)
    {
      ghost var before := a[..];
      var pass := SelectPass(a, i);
      assert SelectionSteps(before, i) == pass + SelectionSteps(a[..], i + 1);
      assert steps + pass + SelectionSteps(a[..], i + 1) == steps + SelectionSteps(before, i);
      steps := steps + pass;
      i := i + 1;
    }
  }

  /** Pass `i` of selection sort: the scan, then the swap of `i` with the minimum. */
  method SelectPass(a: array<int>, i: int) returns (pass: seq<Step>)
    requires 0 <= i < a.Length
    modifies a
    ensures a[..] == SelectVals(old(a[..]), i)
    ensures pass == ScanSteps(old(a[..]), i, i + 1, i) + [NewStep(a[..], [i, ScanMin(old(a[..]), i + 1, i)])]
  {
    var minIndex, scan := FindMin(a, i);
    Swap(a, i, minIndex);
    pass := scan + [NewStep(a[..], [i, minIndex])];
  }

  /** The inner loop of selection sort: scans `a[i + 1..]` for the first
      occurrence of the minimum of `a[i..]`, recording every comparison. */
  method FindMin(a: array<int>, i: int) returns (minIndex: int, scan: seq<Step>)
    requires 0 <= i < a.Length
    ensures i <= minIndex < a.Length
    ensures forall p :: i <= p < a.Length ==> a[minIndex] <= a[p]
    ensures forall p :: i <= p < minIndex ==> a[minIndex] < a[p]
    ensures minIndex == ScanMin(a[..], i + 1, i) && scan == ScanSteps(a[..], i, i + 1, i)
  {
    minIndex := i;
    scan := [];
    var j := i + 1;
    while j < a.Length
      invariant i + 1 <= j <= a.Length && i <= minIndex < j
      invariant forall p :: i <= p < j ==> a[minIndex] <= a[p]
      invariant forall p :: i <= p < minIndex ==> a[minIndex] < a[p]
      invariant ScanMin(a[..], j, minIndex) == ScanMin(a[..], i + 1, i)
      invariant scan + ScanSteps(a[..], i, j, minIndex) == ScanSteps(a[..], i, i + 1, i)
    {
      assert scan + [NewStep(a[..], [i, j, minIndex])] + ScanSteps(a[..], i, j + 1, if a[j] < a[minIndex] then j else minIndex)
          == scan + ScanSteps(a[..], i, j, minIndex);
      scan := scan + [NewStep(a[..], [i, j, minIndex])];
      if a[j] < a[minIndex] {
        minIndex := j;
      }
      j := j + 1;
    }
  }

  /** The scan never leaves the array, nor goes below its starting point. */
  lemma {:induction false} ScanMinBounds(s: seq<int>, j: nat, mi: nat)
    requires mi < j && mi < |s|
    ensures mi <= ScanMin(s, j, mi) < |s|
    decreases |s| - j
  {
    if j < |s| {
      ScanMinBounds(s, j + 1, if s[j] < s[mi] then j else mi);
    }
  }

  /** The scan settles on the minimum of `s[i..]` when `mi` is the minimum of `s[i..j]`. */
  lemma {:induction false} ScanMinIsMin(s: seq<int>, i: nat, j: nat, mi: nat)
    requires i <= mi < |s| && mi < j && forall p :: i <= p < j && p < |s| ==> s[mi] <= s[p]
    ensures i <= ScanMin(s, j, mi) < |s|
    ensures forall p :: i <= p < |s| ==> s[ScanMin(s, j, mi)] <= s[p]
    decreases |s| - j
  {
    if j < |s| {
      ScanMinIsMin(s, i, j + 1, if s[j] < s[mi] then j else mi);
    }
  }

  /** The first `i` elements are in order and none exceeds an element after them. */
  predicate Placed(s: seq<int>, i: int) {
    && (forall p, q :: 0 <= p < q < i && q < |s| ==> s[p] <= s[q])
    && (forall p, q :: 0 <= p < i <= q < |s| ==> s[p] <= s[q])
  }

  /** Pass `i` places the minimum of `s[i..]` at `i`. */
  lemma SelectPlaces(s: seq<int>, i: nat)
    requires i < |s| && Placed(s, i)
    ensures Placed(SelectVals(s, i), i + 1)
  {
    ScanMinIsMin(s, i, i + 1, i);
    var t := SelectVals(s, i);
    var mi := ScanMin(s, i + 1, i);
    assert forall p :: 0 <= p < |s| && p != i && p != mi ==> t[p] == s[p];
    assert t[i] == s[mi] && t[mi] == s[i];
    forall p, q | 0 <= p < i + 1 <= q < |s| ensures t[p] <= t[q] {
      if p < i {
        assert t[p] == s[p];
      }
    }
  }

  lemma {:induction false} SelectionSorts(s: seq<int>, i: nat)
    requires i <= |s| && Placed(s, i)
    ensures Sorted(SelectionVals(s, i))
    decreases |s| - i
  {
    if i + 1 < |s| {
      SelectPlaces(s, i);
      SelectionSorts(SelectVals(s, i), i + 1);
    }
  }

  lemma {:induction false} SelectionPerm(s: seq<int>, i: nat)
    ensures multiset(SelectionVals(s, i)) == multiset(s)
    decreases |s| - i
  {
    if i + 1 < |s| {
      ScanMinBounds(s, i + 1, i);
      SwappedPerm(s, i, ScanMin(s, i + 1, i));
      SelectionPerm(SelectVals(s, i), i + 1);
    }
  }

  /** A scan from `j` records one step per remaining element. */
  lemma {:induction false} ScanCount(s: seq<int>, i: nat, j: nat, mi: nat)
    requires mi < |s|
    ensures |ScanSteps(s, i, j, mi)| == if j >= |s| then 0 else |s| - j
    decreases |s| - j
  {
    if j < |s| {
      ScanCount(s, i, j + 1, if s[j] < s[mi] then j else mi);
    }
  }

  /** Each step of a scan copies `s` and highlights `i`, `j` and the running minimum. */
  lemma {:induction false} ScanLogged(s: seq<int>, orig: seq<int>, i: nat, j: nat, mi: nat)
    requires i < |s| && mi < |s| && multiset(s) == multiset(orig)
    ensures Logged(ScanSteps(s, i, j, mi), |s|, 0, |s|) && Rearranged(ScanSteps(s, i, j, mi), orig)
    decreases |s| - j
  {
    if j < |s| {
      var st := NewStep(s, [i, j, mi]);
      var rest := ScanSteps(s, i, j + 1, if s[j] < s[mi] then j else mi);
      ScanLogged(s, orig, i, j + 1, if s[j] < s[mi] then j else mi);
      assert Fits(st, |s|, 0, |s|);
      assert Logged([st], |s|, 0, |s|) && Rearranged([st], orig);
      LoggedAppend([st], rest, |s|, 0, |s|);
      RearrangedAppend([st], rest, orig);
    }
  }

  lemma {:induction false} SelectionLogged(s: seq<int>, orig: seq<int>, i: nat)
    requires |s| == |orig| && multiset(s) == multiset(orig)
    ensures Logged(SelectionSteps(s, i), |s|, 0, |s|) && Rearranged(SelectionSteps(s, i), orig)
    decreases |s| - i
  {
    if i + 1 < |s| {
      var t := SelectVals(s, i);
      var mi := ScanMin(s, i + 1, i);
      ScanMinBounds(s, i + 1, i);
      SwappedPerm(s, i, mi);
      ScanLogged(s, orig, i, i + 1, i);
      LoggedSnoc(ScanSteps(s, i, i + 1, i), NewStep(t, [i, mi]), |s|, 0, |s|);
      RearrangedSnoc(ScanSteps(s, i, i + 1, i), NewStep(t, [i, mi]), orig);
      SelectionLogged(t, orig, i + 1);
      LoggedAppend(ScanSteps(s, i, i + 1, i) + [NewStep(t, [i, mi])], SelectionSteps(t, i + 1), |s|, 0, |s|);
      RearrangedAppend(ScanSteps(s, i, i + 1, i) + [NewStep(t, [i, mi])], SelectionSteps(t, i + 1), orig);
    }
  }

  /** Passes `i ..` record their comparisons plus one swap step each. */
  lemma {:induction false} SelectionCount(s: seq<int>, i: nat)
    ensures |SelectionSteps(s, i)| == SelectionStepCount(|s|, i)
    decreases |s| - i
  {
    if i + 1 < |s| {
      var t := SelectVals(s, i);
      ScanCount(s, i, i + 1, i);
      SelectionCount(t, i + 1);
      assert SelectionSteps(s, i)
          == ScanSteps(s, i, i + 1, i) + [NewStep(t, [i, ScanMin(s, i + 1, i)])] + SelectionSteps(t, i + 1);
    }
  }

  /** The number of steps of the passes `i ..` over `n` elements: pass `t`
      compares `n - t - 1` pairs and swaps once. */
  function SelectionStepCount(n: int, i: nat): int
    decreases n - i
  {
    if i + 1 >= n then 0 else (n - i) + SelectionStepCount(n, i + 1)
  }

  lemma {:induction false} SelectionStepCountClosedForm(n: int, i: nat)
    requires i < n
    ensures 2 * (SelectionStepCount(n, i) + 1) == (n - i) * (n - i + 1)
    decreases n - i
  {
    if i + 1 < n {
      SelectionStepCountClosedForm(n, i + 1);
      assert (n - i) * (n - i + 1) == (n - i - 1) * (n - i) + 2 * (n - i);
    }
  }
}
