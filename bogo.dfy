/** Bogo sort (`bogoSort`, `isSorted`, `shuffle`; the JavaScript version with
    its inner `isSorted` and `shuffle` does exactly the same). The random index
    of each shuffle round is read from a supplied stream of draws; the run stops
    early, unfinished, when the stream cannot feed one more whole shuffle. */
module BogoSorting {
  import opened Snapshots
  import opened Ordering

  /** `isSorted(arr)`: scan the adjacent pairs and stop at the first one out
      of order. */
  method IsSorted(a: array<int>) returns (sorted: bool)
    ensures sorted <==> AdjacentSorted(a[..])
    ensures sorted <==> Sorted(a[..])
  {
    AdjacentSortedIffSorted(a[..]);
    var i := 0;
    while i < a.Length - 1
      invariant 0 <= i && (i <= a.Length - 1 || i == 0)
      invariant forall k :: 0 <= k < i ==> a[k] <= a[k + 1]
    {
      if a[i] > a[i + 1] {
        return false;
      }
      i := i + 1;
    }
    return true;
  }

  /** How many draws one `shuffle` of an array of length `n` consumes: one for
      each `i` from `n - 1` down to `1`. */
  function Rounds(n: int): nat {
    if n <= 1 then 0 else n - 1
  }

  /** The random index of round `i` of a shuffle of `s`: `draws` holds one
      draw per round, the round for `i = |s| - 1` first, and the draw is
      brought into `[0, i]` as `Math.random() * (i + 1)` is. */
  function Pick(s: seq<int>, draws: seq<nat>, i: int): (index: int)
    requires 0 < i < |s| && |draws| == Rounds(|s|)
    ensures 0 <= index <= i
  {
    draws[|s| - 1 - i] % (i + 1)
  }

  /** The array a `shuffle` leaves once the rounds `i, i - 1, .., 1` have
      swapped the picked index with `i`. */
  function Shuffled(s: seq<int>, draws: seq<nat>, i: int): (t: seq<int>)
    requires i < |s| && |draws| == Rounds(|s|)
    ensures |t| == |s|
    decreases i
  {
    if i <= 0 then s
    else Shuffled(Swapped(s, Pick(s, draws, i), i), draws, i - 1)
  }

  /** A shuffle only rearranges. */
  lemma {:induction false} ShuffledPerm(s: seq<int>, draws: seq<nat>, i: int)
    requires i < |s| && |draws| == Rounds(|s|)
    ensures multiset(Shuffled(s, draws, i)) == multiset(s)
    decreases i
  {
    if i > 0 {
      var t := Swapped(s, Pick(s, draws, i), i);
      SwappedPerm(s, Pick(s, draws, i), i);
      ShuffledPerm(t, draws, i - 1);
    }
  }

  /** `shuffle(arr)`: for `i` from the last index down to `1`, swap `arr[i]`
      with the element at the picked index in `[0, i]`. */
  method Shuffle(a: array<int>, draws: seq<nat>)
    requires |draws| == Rounds(a.Length)
    modifies a
    ensures a[..] == Shuffled(old(a[..]), draws, a.Length - 1)
  {
    ghost var orig := a[..];
    var i := a.Length - 1;
    while i > 0
      invariant i < a.Length
      invariant Shuffled(a[..], draws, i) == Shuffled(orig, draws, a.Length - 1)
    {
      var index := draws[a.Length - 1 - i] % (i + 1);
      Swap(a, index, i);
      i := i - 1;
    }
  }

  /** What the `while (!isSorted(arr))` loop of `bogoSort` leaves: the
      array, the step recorded after each shuffle, and whether the array
      ended sorted. */
  datatype Shuffling = Shuffling(vals: seq<int>, shuffles: seq<Step>, sorted: bool)

  /** The loop run from `s` on the stream `draws`: stop sorted, or stop
      unfinished when fewer draws remain than one shuffle consumes, or
      shuffle with the next `Rounds(|s|)` draws, record, and go on. */
  function ShuffleRun(s: seq<int>, draws: seq<nat>): (r: Shuffling)
    ensures |r.vals| == |s|
    decreases |draws|
  {
    if Sorted(s) then Shuffling(s, [], true)
    else if |draws| < Rounds(|s|) then Shuffling(s, [], false)
    else
      var t := Shuffled(s, draws[..Rounds(|s|)], |s| - 1);
      var rest := ShuffleRun(t, draws[Rounds(|s|)..]);
      Shuffling(rest.vals, [NewStep(t, AllIndices(|s|))] + rest.shuffles, rest.sorted)
  }

  /** The steps `bogoSort` records: the input, the shuffles, and the sorted
      array when the loop got there. */
  function BogoSteps(s: seq<int>, draws: seq<nat>): seq<Step> {
    var r := ShuffleRun(s, draws);
    [NewStep(s, [])] + r.shuffles + (if r.sorted then [NewStep(r.vals, [])] else [])
  }

  /** The loop stops sorted exactly when its array is sorted. */
  lemma {:induction false} ShuffleRunSorted(s: seq<int>, draws: seq<nat>)
    ensures ShuffleRun(s, draws).sorted <==> Sorted(ShuffleRun(s, draws).vals)
    decreases |draws|
  {
    if !Sorted(s) && |draws| >= Rounds(|s|) {
      ShuffleRunSorted(Shuffled(s, draws[..Rounds(|s|)], |s| - 1), draws[Rounds(|s|)..]);
    }
  }

  /** Every shuffle rearranges, so the loop does too. */
  lemma {:induction false} ShuffleRunPerm(s: seq<int>, draws: seq<nat>)
    ensures multiset(ShuffleRun(s, draws).vals) == multiset(s)
    ensures Rearranged(ShuffleRun(s, draws).shuffles, s)
    decreases |draws|
  {
    if !Sorted(s) && |draws| >= Rounds(|s|) {
      var t := Shuffled(s, draws[..Rounds(|s|)], |s| - 1);
      var rest := ShuffleRun(t, draws[Rounds(|s|)..]);
      assert ShuffleRun(s, draws) == Shuffling(rest.vals, [NewStep(t, AllIndices(|s|))] + rest.shuffles, rest.sorted);
      ShuffledPerm(s, draws[..Rounds(|s|)], |s| - 1);
      ShuffleRunPerm(t, draws[Rounds(|s|)..]);
      RearrangedAppend([NewStep(t, AllIndices(|s|))], rest.shuffles, s);
    }
  }

  /** Every shuffle step highlights every index, and only indices. */
  lemma {:induction false} ShuffleRunLogged(s: seq<int>, draws: seq<nat>)
    ensures Logged(ShuffleRun(s, draws).shuffles, |s|, 0, |s|)
    ensures forall k :: 0 <= k < |ShuffleRun(s, draws).shuffles| ==> ShuffleRun(s, draws).shuffles[k].active == AllIndices(|s|)
    decreases |draws|
  {
    if !Sorted(s) && |draws| >= Rounds(|s|) {
      var t := Shuffled(s, draws[..Rounds(|s|)], |s| - 1);
      var rest := ShuffleRun(t, draws[Rounds(|s|)..]);
      var shuffled := NewStep(t, AllIndices(|s|));
      assert ShuffleRun(s, draws).shuffles == [shuffled] + rest.shuffles;
      ShuffleRunLogged(t, draws[Rounds(|s|)..]);
      LoggedAppend([shuffled], rest.shuffles, |s|, 0, |s|);
    }
  }

  /** Only the last shuffle can leave the array sorted: the loop tests after
      every shuffle. */
  lemma {:induction false} ShuffleRunUnsortedBefore(s: seq<int>, draws: seq<nat>)
    ensures forall k :: 0 <= k < |ShuffleRun(s, draws).shuffles| - 1 ==>
      !Sorted(ShuffleRun(s, draws).shuffles[k].vals)
    decreases |draws|
  {
    if !Sorted(s) && |draws| >= Rounds(|s|) {
      var t := Shuffled(s, draws[..Rounds(|s|)], |s| - 1);
      var rest := ShuffleRun(t, draws[Rounds(|s|)..]);
      var shuffles := [NewStep(t, AllIndices(|s|))] + rest.shuffles;
      assert ShuffleRun(s, draws).shuffles == shuffles;
      ShuffleRunUnsortedBefore(t, draws[Rounds(|s|)..]);
      forall k | 0 <= k < |shuffles| - 1 ensures !Sorted(shuffles[k].vals) {
        if k > 0 {
          assert shuffles[k] == rest.shuffles[k - 1];
          assert 0 <= k - 1 < |rest.shuffles| - 1;
        } else {
          assert shuffles[0].vals == t && |rest.shuffles| > 0;
        }
      }
    }
  }

  /** The last shuffle step records the array the loop leaves. */
  lemma {:induction false} ShuffleRunLast(s: seq<int>, draws: seq<nat>)
    ensures var r := ShuffleRun(s, draws);
      |r.shuffles| > 0 ==> r.shuffles[|r.shuffles| - 1].vals == r.vals
    decreases |draws|
  {
    if !Sorted(s) && |draws| >= Rounds(|s|) {
      var t := Shuffled(s, draws[..Rounds(|s|)], |s| - 1);
      var rest := ShuffleRun(t, draws[Rounds(|s|)..]);
      var shuffles := [NewStep(t, AllIndices(|s|))] + rest.shuffles;
      assert ShuffleRun(s, draws) == Shuffling(rest.vals, shuffles, rest.sorted);
      ShuffleRunLast(t, draws[Rounds(|s|)..]);
      if rest.shuffles == [] {
        assert rest.vals == t;
      } else {
        assert shuffles[|shuffles| - 1] == rest.shuffles[|rest.shuffles| - 1];
      }
    }
  }

  /** A recorded shuffle is sorted exactly when it is the last one and the
      loop stopped sorted. */
  lemma ShuffleRunSortedLast(s: seq<int>, draws: seq<nat>)
    ensures var r := ShuffleRun(s, draws);
      forall k :: 0 <= k < |r.shuffles| ==> (Sorted(r.shuffles[k].vals) <==> r.sorted && k == |r.shuffles| - 1)
  {
    var r := ShuffleRun(s, draws);
    ShuffleRunSorted(s, draws);
    ShuffleRunUnsortedBefore(s, draws);
    ShuffleRunLast(s, draws);
    forall k | 0 <= k < |r.shuffles|
      ensures Sorted(r.shuffles[k].vals) <==> r.sorted && k == |r.shuffles| - 1
    {
      if k == |r.shuffles| - 1 {
        assert r.shuffles[k].vals == r.vals;
      }
    }
  }

  /** Each shuffle consumes `Rounds(|s|)` draws, and the loop only gives up
      unsorted when fewer than that remain. */
  lemma {:induction false} ShuffleRunDraws(s: seq<int>, draws: seq<nat>)
    ensures var r := ShuffleRun(s, draws);
      && |r.shuffles| * Rounds(|s|) <= |draws|
      && (!r.sorted ==> |draws| < (|r.shuffles| + 1) * Rounds(|s|))
    decreases |draws|
  {
    if !Sorted(s) && |draws| >= Rounds(|s|) {
      var t := Shuffled(s, draws[..Rounds(|s|)], |s| - 1);
      var rest := ShuffleRun(t, draws[Rounds(|s|)..]);
      assert ShuffleRun(s, draws) == Shuffling(rest.vals, [NewStep(t, AllIndices(|s|))] + rest.shuffles, rest.sorted);
      ShuffleRunDraws(t, draws[Rounds(|s|)..]);
      var k, n := |rest.shuffles|, Rounds(|s|);
      assert (k + 1) * n == k * n + n && (k + 2) * n == (k + 1) * n + n;
    }
  }

  /** `bogoSort(arr)`: record the input, then shuffle and record the array
      with every index highlighted until it is sorted, and record the sorted
      array. The run is unfinished when the draws give out first; then the
      closing step is missing. */
  method BogoSort(a: array<int>, draws: seq<nat>) returns (steps: seq<Step>, finished: bool)
    modifies a
    ensures steps == BogoSteps(old(a[..]), draws) && a[..] == ShuffleRun(old(a[..]), draws).vals
    ensures finished == ShuffleRun(old(a[..]), draws).sorted
    ensures finished <==> Sorted(a[..])
    ensures multiset(a[..]) == multiset(old(a[..]))
    ensures |steps| >= 1 && steps[0] == NewStep(old(a[..]), [])
    ensures finished ==> Bracketed(steps, old(a[..]), a[..])
    ensures forall k :: 0 < k < |steps| - (if finished then 1 else 0) ==> steps[k].active == AllIndices(a.Length)
    ensures forall k :: 0 < k < |steps| ==> (Sorted(steps[k].vals) <==> finished && k >= |steps| - 2)
    ensures !finished ==> |draws| < |steps| * Rounds(a.Length)
    ensures Sorted(old(a[..])) ==> finished && |steps| == 2 && a[..] == old(a[..])
    ensures Logged(steps, a.Length, 0, a.Length) && Rearranged(steps, old(a[..]))
  {
    var first := NewStep(a[..], []);
    var shuffles;
    shuffles, finished := ShuffleUntilSorted(a, draws);
    steps := [first] + shuffles + (if finished then [NewStep(a[..], [])] else []);
    BogoFrame(old(a[..]), a[..], shuffles, finished);
  }

  /** Framing the shuffles with the input and, when sorted, the final array:
      the steps between highlight every index, a step is sorted exactly when
      it is the last shuffle or the closing step of a finished run, and the
      framing keeps every step inside the array and a rearrangement of the
      input. */
  lemma BogoFrame(s: seq<int>, fin: seq<int>, shuffles: seq<Step>, sorted: bool)
    requires |fin| == |s| && multiset(fin) == multiset(s)
    requires sorted <==> Sorted(fin)
    requires forall k :: 0 <= k < |shuffles| ==> (Sorted(shuffles[k].vals) <==> sorted && k == |shuffles| - 1)
    requires forall k :: 0 <= k < |shuffles| ==> shuffles[k].active == AllIndices(|fin|)
    requires Logged(shuffles, |s|, 0, |s|) && Rearranged(shuffles, s)
    ensures var steps := [NewStep(s, [])] + shuffles + (if sorted then [NewStep(fin, [])] else []);
      && (forall k :: 0 < k < |steps| - (if sorted then 1 else 0) ==> steps[k].active == AllIndices(|fin|))
      && (forall k :: 0 < k < |steps| ==> (Sorted(steps[k].vals) <==> sorted && k >= |steps| - 2))
      && (sorted ==> Bracketed(steps, s, fin))
      && Logged(steps, |s|, 0, |s|) && Rearranged(steps, s)
  {
    var steps := [NewStep(s, [])] + shuffles + (if sorted then [NewStep(fin, [])] else []);
    forall k | 0 < k < |steps|
      ensures k < |steps| - (if sorted then 1 else 0) ==> steps[k].active == AllIndices(|fin|)
      ensures Sorted(steps[k].vals) <==> sorted && k >= |steps| - 2
    {
      if k <= |shuffles| {
        assert steps[k] == shuffles[k - 1];
      }
    }
    forall k | 0 <= k < |steps|
      ensures Fits(steps[k], |s|, 0, |s|) && multiset(steps[k].vals) == multiset(s)
    {
      if 0 < k <= |shuffles| {
        assert steps[k] == shuffles[k - 1];
      }
    }
  }

  /** The `while (!isSorted(arr))` loop of `bogoSort`: shuffle and record,
      for as long as the array is unsorted and the draws last. */
  method ShuffleUntilSorted(a: array<int>, draws: seq<nat>) returns (shuffles: seq<Step>, sorted: bool)
    modifies a
    ensures ShuffleRun(old(a[..]), draws) == Shuffling(a[..], shuffles, sorted)
    ensures sorted <==> Sorted(a[..])
    ensures forall k :: 0 <= k < |shuffles| ==> (Sorted(shuffles[k].vals) <==> sorted && k == |shuffles| - 1)
    ensures |shuffles| > 0 ==> shuffles[|shuffles| - 1].vals == a[..]
    ensures |shuffles| * Rounds(a.Length) <= |draws|
    ensures !sorted ==> |draws| < (|shuffles| + 1) * Rounds(a.Length)
    ensures multiset(a[..]) == multiset(old(a[..]))
    ensures forall k :: 0 <= k < |shuffles| ==> shuffles[k].active == AllIndices(a.Length)
    ensures Sorted(old(a[..])) ==> shuffles == [] && a[..] == old(a[..])
    ensures Logged(shuffles, a.Length, 0, a.Length) && Rearranged(shuffles, old(a[..]))
  {
    ghost var orig := a[..];
    var n := a.Length;
    shuffles := [];
    var rest := draws;
    sorted := IsSorted(a);
    while !sorted && |rest| >= Rounds(n)
      invariant sorted <==> Sorted(a[..])
      invariant ShuffleRun(orig, draws) == ShuffleFrom(a[..], rest, shuffles)
      decreases |rest|
    {
      ghost var before := a[..];
      Shuffle(a, rest[..Rounds(n)]);
      ShuffleOne(before, rest, shuffles);
      rest := rest[Rounds(n)..];
      shuffles := shuffles + [NewStep(a[..], AllIndices(n))];
      sorted := IsSorted(a);
    }
    ghost var fin := a[..];
    ShuffleTie(orig, draws, fin, rest, shuffles, sorted);
    ShuffleStopSorted(orig, draws, fin, shuffles, sorted);
    ShuffleStopLogged(orig, draws, fin, shuffles, sorted);
  }

  /** The loop run from `s` on `rest`, after `done` has been recorded. */
  function ShuffleFrom(s: seq<int>, rest: seq<nat>, done: seq<Step>): Shuffling {
    var r := ShuffleRun(s, rest);
    Shuffling(r.vals, done + r.shuffles, r.sorted)
  }

  /** What the loop leaves is sorted exactly when it says so, only its last
      shuffle can be sorted, and it stopped for lack of draws otherwise. */
  lemma ShuffleStopSorted(orig: seq<int>, draws: seq<nat>, s: seq<int>, shuffles: seq<Step>, sorted: bool)
    requires ShuffleRun(orig, draws) == Shuffling(s, shuffles, sorted)
    ensures sorted <==> Sorted(s)
    ensures forall k :: 0 <= k < |shuffles| ==> (Sorted(shuffles[k].vals) <==> sorted && k == |shuffles| - 1)
    ensures |shuffles| > 0 ==> shuffles[|shuffles| - 1].vals == s
    ensures |shuffles| * Rounds(|s|) <= |draws|
    ensures !sorted ==> |draws| < (|shuffles| + 1) * Rounds(|s|)
  {
    ShuffleRunSorted(orig, draws);
    ShuffleRunSortedLast(orig, draws);
    ShuffleRunLast(orig, draws);
    ShuffleRunDraws(orig, draws);
  }

  /** What the loop leaves and records rearranges its input, and every
      shuffle step highlights every index. */
  lemma ShuffleStopLogged(orig: seq<int>, draws: seq<nat>, s: seq<int>, shuffles: seq<Step>, sorted: bool)
    requires ShuffleRun(orig, draws) == Shuffling(s, shuffles, sorted)
    ensures multiset(s) == multiset(orig)
    ensures forall k :: 0 <= k < |shuffles| ==> shuffles[k].active == AllIndices(|s|)
    ensures Sorted(orig) ==> shuffles == [] && s == orig
    ensures Logged(shuffles, |s|, 0, |s|) && Rearranged(shuffles, orig)
  {
    ShuffleRunPerm(orig, draws);
    ShuffleRunLogged(orig, draws);
  }

  /** Where the loop stops nothing remains to run. */
  lemma ShuffleTie(orig: seq<int>, draws: seq<nat>, s: seq<int>, rest: seq<nat>, shuffles: seq<Step>, sorted: bool)
    requires ShuffleRun(orig, draws) == ShuffleFrom(s, rest, shuffles)
    requires (sorted <==> Sorted(s)) && (sorted || |rest| < Rounds(|s|))
    ensures ShuffleRun(orig, draws) == Shuffling(s, shuffles, sorted)
  {
    assert ShuffleRun(s, rest) == Shuffling(s, [], sorted);
    assert shuffles + [] == shuffles;
  }

  /** One round of the loop keeps `ShuffleFrom` unchanged. */
  lemma ShuffleOne(s: seq<int>, rest: seq<nat>, done: seq<Step>)
    requires !Sorted(s) && |rest| >= Rounds(|s|)
    ensures var t := Shuffled(s, rest[..Rounds(|s|)], |s| - 1);
      ShuffleFrom(s, rest, done) == ShuffleFrom(t, rest[Rounds(|s|)..], done + [NewStep(t, AllIndices(|s|))])
  {
    var t := Shuffled(s, rest[..Rounds(|s|)], |s| - 1);
    AppendAssoc(done, [NewStep(t, AllIndices(|s|))], ShuffleRun(t, rest[Rounds(|s|)..]).shuffles);
  }
}
