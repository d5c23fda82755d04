/** Top-down merge sort (`mergeSort`, `mergeSortHelper`, `merge`; the
    JavaScript functions of the same names do exactly the same). As for the
    other drivers, the methods are tied to recursive definitions of the array
    they leave and the steps they record, and the promises are proved about
    those definitions. */
module MergeSorting {
  import opened Snapshots
  import opened Ordering

  // ---------------------------------------------------------------- merge

  /** The next write of `merge` takes the head of the left run: the right run
      is used up, or the left head is not larger (ties go left). */
  predicate TakesLeft(l: seq<int>, r: seq<int>, i: nat, j: nat) {
    i < |l| && (j == |r| || (j < |r| && l[i] <= r[j]))
  }

  /** The array after the next write, into position `lo + i + j`, once
      `l[..i]` and `r[..j]` have been taken. */
  function Taken(s: seq<int>, lo: int, l: seq<int>, r: seq<int>, i: nat, j: nat): (t: seq<int>)
    requires 0 <= lo && lo + |l| + |r| <= |s| && i <= |l| && j <= |r| && (i < |l| || j < |r|)
    ensures |t| == |s|
  {
    if TakesLeft(l, r, i, j) then s[lo + i + j := l[i]] else s[lo + i + j := r[j]]
  }

  /** The steps recorded around that write: while both runs last, the two
      heads (at their original positions `lo + i` and `lo + |l| + j`) before
      the comparison; in every case the plain array after the write. */
  function TakeRecords(s: seq<int>, lo: int, l: seq<int>, r: seq<int>, i: nat, j: nat): seq<Step>
    requires 0 <= lo && lo + |l| + |r| <= |s| && i <= |l| && j <= |r| && (i < |l| || j < |r|)
  {
    (if i < |l| && j < |r| then [NewStep(s, [lo + i, lo + |l| + j])] else []) + [NewStep(Taken(s, lo, l, r, i, j), [])]
  }

  /** The array after `merge` has taken the rest of the runs `l` and `r` into
      positions `lo + i + j ..`. */
  function MergeVals(s: seq<int>, lo: int, l: seq<int>, r: seq<int>, i: nat, j: nat): (t: seq<int>)
    requires 0 <= lo && lo + |l| + |r| <= |s| && i <= |l| && j <= |r|
    ensures |t| == |s|
    decreases |l| - i + |r| - j
  {
    if i == |l| && j == |r| then s
    else if TakesLeft(l, r, i, j) then MergeVals(Taken(s, lo, l, r, i, j), lo, l, r, i + 1, j)
    else MergeVals(Taken(s, lo, l, r, i, j), lo, l, r, i, j + 1)
  }

  /** ... and the steps recorded meanwhile. */
  function MergeSteps(s: seq<int>, lo: int, l: seq<int>, r: seq<int>, i: nat, j: nat): seq<Step>
    requires 0 <= lo && lo + |l| + |r| <= |s| && i <= |l| && j <= |r|
    decreases |l| - i + |r| - j
  {
    if i == |l| && j == |r| then []
    else if TakesLeft(l, r, i, j) then TakeRecords(s, lo, l, r, i, j) + MergeSteps(Taken(s, lo, l, r, i, j), lo, l, r, i + 1, j)
    else TakeRecords(s, lo, l, r, i, j) + MergeSteps(Taken(s, lo, l, r, i, j), lo, l, r, i, j + 1)
  }

  /** `merge(arr, left, middle, right)`: copies the runs `[left, middle]` and
      `(middle, right]`, then writes them back merged, taking from the left
      run on ties. */
  method MergeRuns(a: array<int>, left: int, middle: int, right: int) returns (steps: seq<Step>)
    requires 0 <= left <= middle < right < a.Length
    modifies a
    ensures a[..] == old(a[..left]) + Merge(old(a[left..middle + 1]), old(a[middle + 1..right + 1])) + old(a[right + 1..])
    ensures MergeRun(old(a[..]), left, middle, right) == Run(a[..], steps)
    ensures Logged(steps, a.Length, left, right + 1)
  {
    var leftRun := a[left..middle + 1];
    var rightRun := a[middle + 1..right + 1];
    ghost var orig := a[..];
    steps := WriteBack(a, left, leftRun, rightRun);
    assert leftRun == orig[left..middle + 1] && rightRun == orig[middle + 1..right + 1];
    MergeOfRuns(orig, left, leftRun, rightRun, right + 1);
    assert Logged(steps, a.Length, left, right + 1) by {
      MergeLogged(orig, left, leftRun, rightRun, 0, 0);
      assert |orig| == a.Length && left + |leftRun| + |rightRun| == right + 1;
    }
  }

  /** The three loops of `merge`, writing the runs `leftRun` and `rightRun`
      back from position `left`. */
  method WriteBack(a: array<int>, left: int, leftRun: seq<int>, rightRun: seq<int>) returns (steps: seq<Step>)
    requires 0 <= left && left + |leftRun| + |rightRun| <= a.Length
    modifies a
    ensures a[..] == MergeVals(old(a[..]), left, leftRun, rightRun, 0, 0)
    ensures steps == MergeSteps(old(a[..]), left, leftRun, rightRun, 0, 0)
  {
    var i, j, heads := MergeHeads(a, left, leftRun, rightRun);
    var leftTail := CopyLeftTail(a, left, leftRun, rightRun, i, j);
    var rightTail := CopyRightTail(a, left, leftRun, rightRun, j);
    AppendAssoc(heads, leftTail, rightTail);
    steps := heads + leftTail + rightTail;
  }

  /** The first loop of `merge`: while both runs last, record the two heads,
      write the smaller (the left one on ties) and record the array. */
  method MergeHeads(a: array<int>, left: int, leftRun: seq<int>, rightRun: seq<int>) returns (i: nat, j: nat, steps: seq<Step>)
    requires 0 <= left && left + |leftRun| + |rightRun| <= a.Length
    modifies a
    ensures i <= |leftRun| && j <= |rightRun| && (i == |leftRun| || j == |rightRun|)
    ensures MergeVals(a[..], left, leftRun, rightRun, i, j) == MergeVals(old(a[..]), left, leftRun, rightRun, 0, 0)
    ensures steps + MergeSteps(a[..], left, leftRun, rightRun, i, j) == MergeSteps(old(a[..]), left, leftRun, rightRun, 0, 0)
  {
    ghost var orig := a[..];
    var middle := left + |leftRun| - 1;
    var k := left;
    i, j, steps := 0, 0, [];
    while i < |leftRun| && j < |rightRun|
      invariant i <= |leftRun| && j <= |rightRun| && k == left + i + j
      invariant MergeVals(a[..], left, leftRun, rightRun, i, j) == MergeVals(orig, left, leftRun, rightRun, 0, 0)
      invariant steps + MergeSteps(a[..], left, leftRun, rightRun, i, j) == MergeSteps(orig, left, leftRun, rightRun, 0, 0)
    {
      ghost var before, i0, j0 := a[..], i, j;
      var compare := NewStep(a[..], [left + i, middle + 1 + j]);
      i, j := TakeHead(a, left, leftRun, rightRun, i, j);
      k := k + 1;
      TakeNext(before, a[..], left, leftRun, rightRun, i0, j0, steps, [compare, NewStep(a[..], [])]);
      steps := steps + [compare, NewStep(a[..], [])];
    }
  }

  /** The write in the first loop of `merge`: the smaller head (the left one
      on ties) goes to position `left + i + j`, and its run moves on. */
  method TakeHead(a: array<int>, left: int, leftRun: seq<int>, rightRun: seq<int>, i: nat, j: nat) returns (i': nat, j': nat)
    requires 0 <= left && left + |leftRun| + |rightRun| <= a.Length && i < |leftRun| && j < |rightRun|
    modifies a
    ensures a[..] == Taken(old(a[..]), left, leftRun, rightRun, i, j)
    ensures TakesLeft(leftRun, rightRun, i, j) ==> i' == i + 1 && j' == j
    ensures !TakesLeft(leftRun, rightRun, i, j) ==> i' == i && j' == j + 1
  {
    if leftRun[i] <= rightRun[j] {
      a[left + i + j] := leftRun[i];
      i', j' := i + 1, j;
    } else {
      a[left + i + j] := rightRun[j];
      i', j' := i, j + 1;
    }
  }

  /** The second loop of `merge`: copy what is left of the left run, recording
      the array after each write. */
  method CopyLeftTail(a: array<int>, left: int, leftRun: seq<int>, rightRun: seq<int>, i0: nat, j: nat) returns (steps: seq<Step>)
    requires 0 <= left && left + |leftRun| + |rightRun| <= a.Length
    requires i0 <= |leftRun| && j <= |rightRun| && (i0 == |leftRun| || j == |rightRun|)
    modifies a
    ensures MergeVals(a[..], left, leftRun, rightRun, |leftRun|, j) == MergeVals(old(a[..]), left, leftRun, rightRun, i0, j)
    ensures steps + MergeSteps(a[..], left, leftRun, rightRun, |leftRun|, j) == MergeSteps(old(a[..]), left, leftRun, rightRun, i0, j)
  {
    ghost var orig := a[..];
    var i, k := i0, left + i0 + j;
    steps := [];
    while i < |leftRun|
      invariant i0 <= i <= |leftRun| && k == left + i + j
      invariant MergeVals(a[..], left, leftRun, rightRun, i, j) == MergeVals(orig, left, leftRun, rightRun, i0, j)
      invariant steps + MergeSteps(a[..], left, leftRun, rightRun, i, j) == MergeSteps(orig, left, leftRun, rightRun, i0, j)
    {
      ghost var before := a[..];
      assert TakesLeft(leftRun, rightRun, i, j);
      a[k] := leftRun[i];
      i := i + 1;
      k := k + 1;
      TakeNext(before, a[..], left, leftRun, rightRun, i - 1, j, steps, [NewStep(a[..], [])]);
      steps := steps + [NewStep(a[..], [])];
    }
  }

  /** The third loop of `merge`: copy what is left of the right run, recording
      the array after each write. */
  method CopyRightTail(a: array<int>, left: int, leftRun: seq<int>, rightRun: seq<int>, j0: nat) returns (steps: seq<Step>)
    requires 0 <= left && left + |leftRun| + |rightRun| <= a.Length && j0 <= |rightRun|
    modifies a
    ensures a[..] == MergeVals(old(a[..]), left, leftRun, rightRun, |leftRun|, j0)
    ensures steps == MergeSteps(old(a[..]), left, leftRun, rightRun, |leftRun|, j0)
  {
    ghost var orig := a[..];
    var i := |leftRun|;
    var j, k := j0, left + |leftRun| + j0;
    steps := [];
    assert MergeSteps(orig, left, leftRun, rightRun, i, j0) == steps + MergeSteps(a[..], left, leftRun, rightRun, i, j);
    while j < |rightRun|
      invariant j0 <= j <= |rightRun| && k == left + i + j
      invariant MergeVals(a[..], left, leftRun, rightRun, i, j) == MergeVals(orig, left, leftRun, rightRun, i, j0)
      invariant steps + MergeSteps(a[..], left, leftRun, rightRun, i, j) == MergeSteps(orig, left, leftRun, rightRun, i, j0)
    {
      ghost var before := a[..];
      assert !TakesLeft(leftRun, rightRun, i, j);
      a[k] := rightRun[j];
      j := j + 1;
      k := k + 1;
      TakeNext(before, a[..], left, leftRun, rightRun, i, j - 1, steps, [NewStep(a[..], [])]);
      steps := steps + [NewStep(a[..], [])];
    }
    assert MergeVals(a[..], left, leftRun, rightRun, i, j) == a[..];
  }

  /** One write of `merge`, as the definitions unfold it. */
  lemma MergeAdvance(s: seq<int>, lo: int, l: seq<int>, r: seq<int>, i: nat, j: nat)
    requires 0 <= lo && lo + |l| + |r| <= |s| && i <= |l| && j <= |r| && (i < |l| || j < |r|)
    ensures TakesLeft(l, r, i, j) ==>
      && MergeVals(s, lo, l, r, i, j) == MergeVals(Taken(s, lo, l, r, i, j), lo, l, r, i + 1, j)
      && MergeSteps(s, lo, l, r, i, j) == TakeRecords(s, lo, l, r, i, j) + MergeSteps(Taken(s, lo, l, r, i, j), lo, l, r, i + 1, j)
    ensures !TakesLeft(l, r, i, j) ==>
      && MergeVals(s, lo, l, r, i, j) == MergeVals(Taken(s, lo, l, r, i, j), lo, l, r, i, j + 1)
      && MergeSteps(s, lo, l, r, i, j) == TakeRecords(s, lo, l, r, i, j) + MergeSteps(Taken(s, lo, l, r, i, j), lo, l, r, i, j + 1)
  {
  }

  /** One write of a loop of `merge` keeps the loop's account: what is still
      to come from the new array, after the steps recorded so far, is what was
      to come from the old one. */
  lemma TakeNext(s: seq<int>, t: seq<int>, lo: int, l: seq<int>, r: seq<int>, i: nat, j: nat, done: seq<Step>, records: seq<Step>)
    requires 0 <= lo && lo + |l| + |r| <= |s| && i <= |l| && j <= |r| && (i < |l| || j < |r|)
    requires t == Taken(s, lo, l, r, i, j) && records == TakeRecords(s, lo, l, r, i, j)
    ensures TakesLeft(l, r, i, j) ==>
      && MergeVals(t, lo, l, r, i + 1, j) == MergeVals(s, lo, l, r, i, j)
      && (done + records) + MergeSteps(t, lo, l, r, i + 1, j) == done + MergeSteps(s, lo, l, r, i, j)
    ensures !TakesLeft(l, r, i, j) ==>
      && MergeVals(t, lo, l, r, i, j + 1) == MergeVals(s, lo, l, r, i, j)
      && (done + records) + MergeSteps(t, lo, l, r, i, j + 1) == done + MergeSteps(s, lo, l, r, i, j)
  {
    MergeAdvance(s, lo, l, r, i, j);
    if TakesLeft(l, r, i, j) {
      AppendAssoc(done, records, MergeSteps(t, lo, l, r, i + 1, j));
    } else {
      AppendAssoc(done, records, MergeSteps(t, lo, l, r, i, j + 1));
    }
  }

  /** What `merge` writes from position `lo + i + j` on: the rest of the runs,
      merged as the loops take them. */
  function MergeRest(l: seq<int>, r: seq<int>, i: nat, j: nat): (m: seq<int>)
    requires i <= |l| && j <= |r|
    ensures |m| == |l| - i + |r| - j
    decreases |l| - i + |r| - j
  {
    if i == |l| && j == |r| then []
    else if TakesLeft(l, r, i, j) then [l[i]] + MergeRest(l, r, i + 1, j)
    else [r[j]] + MergeRest(l, r, i, j + 1)
  }

  /** The loops of `merge` take the runs in the order of the stable merge. */
  lemma {:induction false} MergeRestIsMerge(l: seq<int>, r: seq<int>, i: nat, j: nat)
    requires i <= |l| && j <= |r|
    ensures MergeRest(l, r, i, j) == Merge(l[i..], r[j..])
    decreases |l| - i + |r| - j
  {
    if i < |l| || j < |r| {
      if TakesLeft(l, r, i, j) {
        MergeRestIsMerge(l, r, i + 1, j);
        assert l[i..][1..] == l[i + 1..];
      } else {
        MergeRestIsMerge(l, r, i, j + 1);
        assert r[j..][1..] == r[j + 1..];
      }
    }
  }

  /** Merging writes exactly the rest of the merge into its place and leaves
      everything else alone. */
  lemma {:induction false} MergeValsShape(s: seq<int>, lo: int, l: seq<int>, r: seq<int>, i: nat, j: nat)
    requires 0 <= lo && lo + |l| + |r| <= |s| && i <= |l| && j <= |r|
    ensures MergeVals(s, lo, l, r, i, j) == s[..lo + i + j] + MergeRest(l, r, i, j) + s[lo + |l| + |r|..]
    decreases |l| - i + |r| - j
  {
    var k := lo + i + j;
    var hi := lo + |l| + |r|;
    if i == |l| && j == |r| {
      assert s == s[..k] + s[hi..];
    } else if TakesLeft(l, r, i, j) {
      MergeValsShape(s[k := l[i]], lo, l, r, i + 1, j);
      ShapeAfterLeft(s, lo, l, r, i, j);
    } else {
      MergeValsShape(s[k := r[j]], lo, l, r, i, j + 1);
      ShapeAfterRight(s, lo, l, r, i, j);
    }
  }

  /** One step of `MergeValsShape`: the write from the left run. */
  lemma ShapeAfterLeft(s: seq<int>, lo: int, l: seq<int>, r: seq<int>, i: nat, j: nat)
    requires 0 <= lo && lo + |l| + |r| <= |s| && i <= |l| && j <= |r| && TakesLeft(l, r, i, j)
    requires var t := s[lo + i + j := l[i]];
      MergeVals(t, lo, l, r, i + 1, j) == t[..lo + i + j + 1] + MergeRest(l, r, i + 1, j) + t[lo + |l| + |r|..]
    ensures MergeVals(s, lo, l, r, i, j) == s[..lo + i + j] + MergeRest(l, r, i, j) + s[lo + |l| + |r|..]
  {
    var k, t := lo + i + j, s[lo + i + j := l[i]];
    assert Taken(s, lo, l, r, i, j) == t;
    assert MergeVals(s, lo, l, r, i, j) == MergeVals(t, lo, l, r, i + 1, j);
    assert MergeRest(l, r, i, j) == [l[i]] + MergeRest(l, r, i + 1, j);
    WriteThenRest(s, t, k, lo + |l| + |r|, l[i], MergeRest(l, r, i + 1, j), MergeRest(l, r, i, j), MergeVals(s, lo, l, r, i, j));
  }

  /** One step of `MergeValsShape`: the write from the right run. */
  lemma ShapeAfterRight(s: seq<int>, lo: int, l: seq<int>, r: seq<int>, i: nat, j: nat)
    requires 0 <= lo && lo + |l| + |r| <= |s| && i <= |l| && j < |r| && !TakesLeft(l, r, i, j)
    requires var t := s[lo + i + j := r[j]];
      MergeVals(t, lo, l, r, i, j + 1) == t[..lo + i + j + 1] + MergeRest(l, r, i, j + 1) + t[lo + |l| + |r|..]
    ensures MergeVals(s, lo, l, r, i, j) == s[..lo + i + j] + MergeRest(l, r, i, j) + s[lo + |l| + |r|..]
  {
    var k, t := lo + i + j, s[lo + i + j := r[j]];
    assert Taken(s, lo, l, r, i, j) == t;
    assert MergeVals(s, lo, l, r, i, j) == MergeVals(t, lo, l, r, i, j + 1);
    assert MergeRest(l, r, i, j) == [r[j]] + MergeRest(l, r, i, j + 1);
    WriteThenRest(s, t, k, lo + |l| + |r|, r[j], MergeRest(l, r, i, j + 1), MergeRest(l, r, i, j), MergeVals(s, lo, l, r, i, j));
  }

  /** Writing `x` at `k` and then keeping the prefix up to `k`, a middle part
      and the suffix from `hi` is the same as putting `x` in front of the middle. */
  lemma WriteThenRest(s: seq<int>, t: seq<int>, k: int, hi: int, x: int, m: seq<int>, rest: seq<int>, merged: seq<int>)
    requires 0 <= k < hi <= |s| && t == s[k := x] && rest == [x] + m && merged == t[..k + 1] + m + t[hi..]
    ensures merged == s[..k] + rest + s[hi..]
  {
    assert t[..k + 1] == s[..k] + [x];
    assert t[hi..] == s[hi..];
  }

  /** Every step of a merge copies the whole array and highlights only
      positions inside the merged range. */
  lemma {:induction false} MergeLogged(s: seq<int>, lo: int, l: seq<int>, r: seq<int>, i: nat, j: nat)
    requires 0 <= lo && lo + |l| + |r| <= |s| && i <= |l| && j <= |r|
    ensures Logged(MergeSteps(s, lo, l, r, i, j), |s|, lo, lo + |l| + |r|)
    decreases |l| - i + |r| - j
  {
    var k := lo + i + j;
    var n := |s|;
    var hi := lo + |l| + |r|;
    var compare := if i < |l| && j < |r| then [NewStep(s, [lo + i, lo + |l| + j])] else [];
    if i < |l| && (j == |r| || l[i] <= r[j]) {
      var t := s[k := l[i]];
      MergeLogged(t, lo, l, r, i + 1, j);
      BracketAfter(compare, NewStep(t, []), MergeSteps(t, lo, l, r, i + 1, j), n, lo, hi);
    } else if j < |r| {
      var t := s[k := r[j]];
      MergeLogged(t, lo, l, r, i, j + 1);
      BracketAfter(compare, NewStep(t, []), MergeSteps(t, lo, l, r, i, j + 1), n, lo, hi);
    }
  }

  lemma BracketAfter(pre: seq<Step>, st: Step, post: seq<Step>, n: int, lo: int, hi: int)
    requires Logged(pre, n, lo, hi) && Fits(st, n, lo, hi) && Logged(post, n, lo, hi)
    ensures Logged(pre + [st] + post, n, lo, hi)
  {
    LoggedSnoc(pre, st, n, lo, hi);
    LoggedAppend(pre + [st], post, n, lo, hi);
  }

  /** Merging the runs `l` and `r` from the start puts their stable merge in
      their place and leaves the rest of the array alone. */
  lemma MergeOfRuns(s: seq<int>, lo: int, l: seq<int>, r: seq<int>, hi: int)
    requires 0 <= lo && hi == lo + |l| + |r| <= |s|
    ensures MergeVals(s, lo, l, r, 0, 0) == s[..lo] + Merge(l, r) + s[hi..]
  {
    MergeValsShape(s, lo, l, r, 0, 0);
    MergeRestIsMerge(l, r, 0, 0);
    assert l[0..] == l && r[0..] == r;
  }

  /** Merging two sorted runs that sit side by side sorts their range,
      rearranges the array and leaves everything outside the range alone. */
  lemma MergeSortsRange(s: seq<int>, t: seq<int>, lo: int, mid: int, hi: int)
    requires 0 <= lo <= mid < hi < |s|
    requires Sorted(s[lo..mid + 1]) && Sorted(s[mid + 1..hi + 1])
    requires t == s[..lo] + Merge(s[lo..mid + 1], s[mid + 1..hi + 1]) + s[hi + 1..]
    ensures t[..lo] == s[..lo] && t[hi + 1..] == s[hi + 1..]
    ensures Sorted(t[lo..hi + 1]) && multiset(t) == multiset(s)
  {
    var l, r := s[lo..mid + 1], s[mid + 1..hi + 1];
    var m := Merge(l, r);
    MergeSorted(l, r);
    MergePerm(l, r);
    ThreeParts(t, s[..lo], m, s[hi + 1..]);
    assert multiset(t) == multiset(s) by {
      assert s == s[..lo] + (l + r) + s[hi + 1..];
    }
  }

  /** The three parts of `p + m + q` are found again by slicing. */
  lemma ThreeParts(t: seq<int>, p: seq<int>, m: seq<int>, q: seq<int>)
    requires t == p + m + q
    ensures t[..|p|] == p && t[|p|..|p| + |m|] == m && t[|p| + |m|..] == q
  {
  }

  /** Two sequences that agree on a prefix (a suffix) agree on every shorter one. */
  lemma ShorterPrefix(x: seq<int>, y: seq<int>, a: int, b: int)
    requires 0 <= a <= b <= |x| && b <= |y| && x[..b] == y[..b]
    ensures x[..a] == y[..a]
  {
    assert x[..a] == x[..b][..a];
    assert y[..a] == y[..b][..a];
  }

  lemma ShorterSuffix(x: seq<int>, y: seq<int>, a: int, b: int)
    requires 0 <= a <= b <= |x| == |y| && x[a..] == y[a..]
    ensures x[b..] == y[b..]
  {
    assert x[b..] == x[a..][b - a..];
    assert y[b..] == y[a..][b - a..];
  }

  // ---------------------------------------------------------------- merge sort

  /** `left + (right - left) / 2`, the last index of the left half: the
      left half is never shorter than the right one, and both are non-empty. */
  function Midpoint(left: int, right: int): (middle: int)
    requires left < right
    ensures left <= middle < right && right - middle <= middle - left + 1
  {
    left + Half(right - left)
  }

  /** `n / 2` for a natural `n`, which the ensures pins down exactly; it is
      defined by recursion rather than by `/` so that proofs about
      `MergeSortRun` stay within linear arithmetic. */
  function Half(n: nat): (h: nat)
    ensures 2 * h <= n <= 2 * h + 1
  {
    if n < 2 then 0 else Half(n - 2) + 1
  }

  /** The array `mergeSortHelper(arr, left, right)` leaves and the steps it
      records: both halves in turn, then `merge` of the two runs as they are
      after that. */
  function MergeSortRun(s: seq<int>, left: int, right: int): (r: Run)
    requires 0 <= left <= right + 1 <= |s|
    ensures |r.vals| == |s|
    decreases right - left
  {
    if left < right then
      var middle := Midpoint(left, right);
      var lower := MergeSortRun(s, left, middle);
      var upper := MergeSortRun(lower.vals, middle + 1, right);
      var merging := MergeRun(upper.vals, left, middle, right);
      Run(merging.vals, lower.steps + upper.steps + merging.steps)
    else Run(s, [])
  }

  /** The array `merge(arr, left, middle, right)` leaves and the steps it
      records: the runs `[left, middle]` and `(middle, right]` merged back
      from `left`. */
  function MergeRun(s: seq<int>, left: int, middle: int, right: int): (r: Run)
    requires 0 <= left <= middle < right < |s|
    ensures |r.vals| == |s|
  {
    Run(MergeVals(s, left, s[left..middle + 1], s[middle + 1..right + 1], 0, 0),
        MergeSteps(s, left, s[left..middle + 1], s[middle + 1..right + 1], 0, 0))
  }

  /** The steps `mergeSort` records: the initial copy, the sort of
      `[0, n - 1]`, the final copy. */
  function MergeSortSteps(s: seq<int>): seq<Step> {
    var sorting := MergeSortRun(s, 0, |s| - 1);
    [NewStep(s, [])] + sorting.steps + [NewStep(sorting.vals, [])]
  }

  /** One merge puts the stable merge of the two runs in their place and
      leaves the rest of the array alone. */
  lemma MergeRunShape(s: seq<int>, left: int, middle: int, right: int)
    requires 0 <= left <= middle < right < |s|
    ensures MergeRun(s, left, middle, right).vals == s[..left] + Merge(s[left..middle + 1], s[middle + 1..right + 1]) + s[right + 1..]
  {
    MergeOfRuns(s, left, s[left..middle + 1], s[middle + 1..right + 1], right + 1);
  }

  /** Every step of one merge highlights only positions of its range. */
  lemma MergeRunLogs(s: seq<int>, left: int, middle: int, right: int)
    requires 0 <= left <= middle < right < |s|
    ensures Logged(MergeRun(s, left, middle, right).steps, |s|, left, right + 1)
  {
    MergeLogged(s, left, s[left..middle + 1], s[middle + 1..right + 1], 0, 0);
  }

  /** `mergeSort`: the initial copy, the sort of `[0, n - 1]`, the final copy.
      The array ends sorted and rearranged, the run starts at the input and
      ends at the result, and every step highlights only indices of the array. */
  method MergeSort(a: array<int>) returns (steps: seq<Step>)
    modifies a
    ensures steps == MergeSortSteps(old(a[..])) && a[..] == MergeSortRun(old(a[..]), 0, a.Length - 1).vals
    ensures Sorted(a[..]) && multiset(a[..]) == multiset(old(a[..]))
    ensures Bracketed(steps, old(a[..]), a[..]) && Logged(steps, a.Length, 0, a.Length)
  {
    ghost var orig := a[..];
    steps := [NewStep(a[..], [])];
    var sorting := MergeSortHelper(a, 0, a.Length - 1);
    MergeRunSorts(orig, 0, a.Length - 1);
    MergeRunLogged(orig, 0, a.Length - 1);
    assert Sorted(a[..]) by {
      forall i, j | 0 <= i < j < a.Length ensures a[i] <= a[j] {
      }
    }
    steps := steps + sorting + [NewStep(a[..], [])];
    BracketLogged(NewStep(orig, []), sorting, NewStep(a[..], []), a.Length);
  }

  /** `mergeSortHelper(arr, left, right)`: sort the left half, then the right
      half, then merge them; the array and the steps are those of
      `MergeSortRun`, whose promises the lemmas below prove. */
  method MergeSortHelper(a: array<int>, left: int, right: int) returns (steps: seq<Step>)
    requires 0 <= left <= right + 1 <= a.Length
    modifies a
    ensures MergeSortRun(old(a[..]), left, right) == Run(a[..], steps)
    decreases right - left
  {
    steps := [];
    if left < right {
      ghost var s0 := a[..];
      var middle := left + (right - left) / 2;
      assert middle == Midpoint(left, right);
      var lower := MergeSortHelper(a, left, middle);
      ghost var s1 := a[..];
      var upper := MergeSortHelper(a, middle + 1, right);
      ghost var s2 := a[..];
      var merging := MergeRuns(a, left, middle, right);
      MergeSortLevel(s0, left, right, middle, s1, lower, s2, upper, a[..], merging);
      steps := lower + upper + merging;
    }
  }

  /** One call of `mergeSortHelper` in terms of its two recursive calls and
      its merge. */
  lemma MergeSortLevel(s0: seq<int>, left: int, right: int, middle: int, s1: seq<int>, lower: seq<Step>,
                       s2: seq<int>, upper: seq<Step>, s3: seq<int>, merging: seq<Step>)
    requires 0 <= left < right < |s0| && middle == Midpoint(left, right)
    requires MergeSortRun(s0, left, middle) == Run(s1, lower)
    requires MergeSortRun(s1, middle + 1, right) == Run(s2, upper)
    requires MergeRun(s2, left, middle, right) == Run(s3, merging)
    ensures MergeSortRun(s0, left, right).vals == s3
    ensures MergeSortRun(s0, left, right).steps == lower + upper + merging
  {
  }

  /** `mergeSortHelper` sorts its range in place: the range ends sorted, the
      array rearranged, everything outside the range untouched. */
  lemma {:induction false} MergeRunSorts(s: seq<int>, left: int, right: int)
    requires 0 <= left <= right + 1 <= |s|
    ensures SortedInPlace(s, MergeSortRun(s, left, right).vals, left, right)
    decreases right - left
  {
    if left < right {
      var middle := Midpoint(left, right);
      var lower := MergeSortRun(s, left, middle);
      var upper := MergeSortRun(lower.vals, middle + 1, right);
      var merged := MergeRun(upper.vals, left, middle, right).vals;
      assert MergeSortRun(s, left, right).vals == merged;
      MergeRunSorts(s, left, middle);
      MergeRunSorts(lower.vals, middle + 1, right);
      MergeRunShape(upper.vals, left, middle, right);
      SortLevel(s, lower.vals, upper.vals, merged, left, middle, right);
    }
  }

  /** Every step `mergeSortHelper` records highlights only positions inside
      its range. */
  lemma {:induction false} MergeRunLogged(s: seq<int>, left: int, right: int)
    requires 0 <= left <= right + 1 <= |s|
    ensures Logged(MergeSortRun(s, left, right).steps, |s|, left, right + 1)
    decreases right - left
  {
    if left < right {
      var middle := Midpoint(left, right);
      var lower := MergeSortRun(s, left, middle);
      var upper := MergeSortRun(lower.vals, middle + 1, right);
      var merging := MergeRun(upper.vals, left, middle, right).steps;
      assert Logged(lower.steps + upper.steps + merging, |s|, left, right + 1) by {
        MergeRunLogged(s, left, middle);
        MergeRunLogged(lower.vals, middle + 1, right);
        MergeRunLogs(upper.vals, left, middle, right);
        LoggedLevel(lower.steps, upper.steps, merging, |s|, left, middle, right);
      }
      assert MergeSortRun(s, left, right).steps == lower.steps + upper.steps + merging;
    }
  }

  /** One level of `mergeSortHelper`: the left half sorted in place, then the
      right half, then the two merged, leave the range sorted in place. */
  lemma SortLevel(s0: seq<int>, s1: seq<int>, s2: seq<int>, s3: seq<int>, lo: int, mid: int, hi: int)
    requires 0 <= lo <= mid < hi < |s0| == |s1| == |s2|
    requires SortedInPlace(s0, s1, lo, mid) && SortedInPlace(s1, s2, mid + 1, hi)
    requires s3 == s2[..lo] + Merge(s2[lo..mid + 1], s2[mid + 1..hi + 1]) + s2[hi + 1..]
    ensures |s3| == |s0| && SortedInPlace(s0, s3, lo, hi)
  {
    assert Sorted(s2[lo..mid + 1]) && Sorted(s2[mid + 1..hi + 1]) by {
      assert forall k :: lo <= k <= mid ==> s2[k] == s1[k];
      RangeSorted(s2, lo, mid);
      RangeSorted(s2, mid + 1, hi);
    }
    MergeSortsRange(s2, s3, lo, mid, hi);
    SortedRange(s3, lo, hi);
    assert forall k :: 0 <= k < |s3| && (k < lo || hi < k) ==> s3[k] == s2[k] by {
      forall k | 0 <= k < |s3| && (k < lo || hi < k) ensures s3[k] == s2[k] {
        if k < lo {
          assert s3[k] == s3[..lo][k];
        } else {
          assert s3[k] == s3[hi + 1..][k - hi - 1] && s2[k] == s2[hi + 1..][k - hi - 1];
        }
      }
    }
  }

  /** The steps of one level stay inside its range. */
  lemma LoggedLevel(lower: seq<Step>, upper: seq<Step>, merging: seq<Step>, n: int, lo: int, mid: int, hi: int)
    requires 0 <= lo <= mid < hi < n
    requires Logged(lower, n, lo, mid + 1) && Logged(upper, n, mid + 1, hi + 1) && Logged(merging, n, lo, hi + 1)
    ensures Logged(lower + upper + merging, n, lo, hi + 1)
  {
    LoggedWiden(lower, n, lo, mid + 1, lo, hi + 1);
    LoggedWiden(upper, n, mid + 1, hi + 1, lo, hi + 1);
    LoggedAppend(lower, upper, n, lo, hi + 1);
    LoggedAppend(lower + upper, merging, n, lo, hi + 1);
  }

  /** Unlike the swapping drivers, merge sort records arrays that are not
      rearrangements of the input: while a merge writes back, a value of the
      right run can sit in two places at once. Merging `[2]` and `[1]` in
      `[2, 1]` records `[1, 1]` after its first write. */
  lemma MergeShowsDuplicates()
    ensures MergeSteps([2, 1], 0, [2], [1], 0, 0) == [NewStep([2, 1], [0, 1]), NewStep([1, 1], []), NewStep([1, 2], [])]
    ensures multiset(MergeSteps([2, 1], 0, [2], [1], 0, 0)[1].vals) != multiset([2, 1])
  {
    assert [2, 1][0 := 1] == [1, 1];
    assert [1, 1][1 := 2] == [1, 2];
    assert MergeSteps([1, 2], 0, [2], [1], 1, 1) == [];
    assert MergeSteps([1, 1], 0, [2], [1], 0, 1) == [NewStep([1, 2], [])];
    assert multiset([1, 1]) != multiset([2, 1]) by {
      assert multiset([1, 1])[2] == 0;
    }
  }
}
