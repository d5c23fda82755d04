/** Quick sort with the Lomuto partition and the last element of the range as
    pivot (`quickSort`, `quickSortHelper`, `partition`; the JavaScript
    functions of the same names do exactly the same). Every step records an
    array reached by swaps alone, so unlike merge sort every recorded array is
    a rearrangement of the input. */
module QuickSorting {
  import opened Snapshots
  import opened Ordering

  /** Number of elements of `s` strictly below `x`. */
  function CountBelow(s: seq<int>, x: int): (c: nat)
    ensures c <= |s|
  {
    if s == [] then 0
    else (if s[0] < x then 1 else 0) + CountBelow(s[1..], x)
  }

  /** Where the scan of `partition` ends: the array, the last index `i` of
      the front part, and the steps recorded. */
  datatype Scan = Scan(vals: seq<int>, last: int, steps: seq<Step>)

  /** The scan of `partition` from position `j` on, with the front part
      ending at `i`: each round records the comparison of `s[j]` with the
      pivot and, when `s[j]` is below it, swaps it in behind the front part
      and records the array after the swap. */
  function ScanFrom(s: seq<int>, high: int, pivot: int, i: int, j: int): (r: Scan)
    requires -1 <= i < j <= high < |s|
    ensures |r.vals| == |s| && i <= r.last < high
    decreases high - j
  {
    if j == high then Scan(s, i, [])
    else
      var compared := NewStep(s, [j, high]);
      if s[j] < pivot then
        var t := Swapped(s, i + 1, j);
        var rest := ScanFrom(t, high, pivot, i + 1, j + 1);
        Scan(rest.vals, rest.last, [compared, NewStep(t, [i + 1, j])] + rest.steps)
      else
        var rest := ScanFrom(s, high, pivot, i, j + 1);
        Scan(rest.vals, rest.last, [compared] + rest.steps)
  }

  /** The result of `partition`: the array, the pivot's final index, and the
      steps recorded. */
  datatype Parted = Parted(vals: seq<int>, pivotAt: int, steps: seq<Step>)

  /** `partition(arr, low, high)` as a definition: the scan with the pivot
      `s[high]`, then the swap of the pivot behind the front part, recorded
      with both positions highlighted. */
  function PartitionRun(s: seq<int>, low: int, high: int): (r: Parted)
    requires 0 <= low < high < |s|
    ensures |r.vals| == |s| && low <= r.pivotAt <= high
  {
    var scan := ScanFrom(s, high, s[high], low - 1, low);
    var t := Swapped(scan.vals, scan.last + 1, high);
    Parted(t, scan.last + 1, scan.steps + [NewStep(t, [scan.last + 1, high])])
  }

  /** `quickSortHelper(arr, low, high)` as a definition: partition, then the
      part below the pivot, then the part above it. */
  function QuickRun(s: seq<int>, low: int, high: int): (r: Run)
    requires 0 <= low <= high + 1 <= |s|
    ensures |r.vals| == |s|
    decreases high - low
  {
    if low < high then
      var part := PartitionRun(s, low, high);
      var lower := QuickRun(part.vals, low, part.pivotAt - 1);
      var upper := QuickRun(lower.vals, part.pivotAt + 1, high);
      Run(upper.vals, part.steps + lower.steps + upper.steps)
    else
      Run(s, [])
  }

  /** The steps of `quickSort(arr)`: the initial copy, the helper's steps over
      the whole array, and the final copy. */
  function QuickSortRun(s: seq<int>): seq<Step> {
    var sorting := QuickRun(s, 0, |s| - 1);
    [NewStep(s, [])] + sorting.steps + [NewStep(sorting.vals, [])]
  }

  /** `partition(arr, low, high)`, with `pivot = arr[high]`: the array, the
      returned index and the steps are those of the definition (see
      `PartitionCount`, `PartitionSides`, `PartitionFrame`, `PartitionRecords`
      and `PartitionLogged` for what they are). */
  method Partition(a: array<int>, low: int, high: int) returns (p: int, steps: seq<Step>)
    requires 0 <= low < high < a.Length
    modifies a
    ensures low <= p <= high
    ensures PartitionRun(old(a[..]), low, high) == Parted(a[..], p, steps)
  {
    ghost var orig := a[..];
    var pivot := a[high];
    var i, scan := PartitionScan(a, low, high, pivot);
    ghost var scanned := a[..];
    Swap(a, i + 1, high);
    PartitionClose(orig, low, high, scanned, i, scan, a[..]);
    steps := scan + [NewStep(a[..], [i + 1, high])];
    p := i + 1;
  }

  /** The `for` loop of `partition`: `[low, i]` collects the elements below
      the pivot, `(i, high)` those at least the pivot; nothing outside
      `[low, high)` moves; one step per comparison and one per swap. */
  method PartitionScan(a: array<int>, low: int, high: int, pivot: int) returns (i: int, steps: seq<Step>)
    requires 0 <= low < high < a.Length
    modifies a
    ensures ScanFrom(old(a[..]), high, pivot, low - 1, low) == Scan(a[..], i, steps)
    ensures low - 1 <= i < high && i + 1 - low == CountBelow(old(a[low..high]), pivot)
    ensures forall k :: low <= k <= i ==> a[k] < pivot
    ensures forall k :: i < k < high ==> pivot <= a[k]
    ensures forall k :: 0 <= k < a.Length && (k < low || high <= k) ==> a[k] == old(a[k])
    ensures multiset(a[..]) == multiset(old(a[..]))
    ensures |steps| == (high - low) + (i + 1 - low)
    ensures Logged(steps, a.Length, low, high + 1) && Rearranged(steps, old(a[..]))
  {
    i, steps := ScanLoop(a, low, high, pivot);
    ScanStop(old(a[..]), low, high, pivot, a[..], i, steps);
  }

  /** The loop of `partition` itself, step by step: it does what `ScanFrom`
      defines, from `j = low` with an empty front part. */
  method ScanLoop(a: array<int>, low: int, high: int, pivot: int) returns (i: int, steps: seq<Step>)
    requires 0 <= low < high < a.Length
    modifies a
    ensures ScanFrom(old(a[..]), high, pivot, low - 1, low) == Scan(a[..], i, steps)
  {
    ghost var orig := a[..];
    i := low - 1;
    steps := [];
    var j := low;
    while j < high
      invariant low <= j <= high && low - 1 <= i < j
      invariant var rest := ScanFrom(a[..], high, pivot, i, j);
        ScanFrom(orig, high, pivot, low - 1, low) == Scan(rest.vals, rest.last, steps + rest.steps)
    {
      ghost var before, front := a[..], i;
      var scanned;
      i, scanned := ScanOne(a, high, i, j, pivot);
      ScanRound(orig, low, steps, before, high, pivot, front, j, a[..], i, scanned);
      steps := steps + scanned;
      j := j + 1;
    }
    assert ScanFrom(a[..], high, pivot, i, j) == Scan(a[..], i, []);
    assert steps + [] == steps;
  }

  /** What the whole scan leaves, stated of the array and steps it ends with. */
  lemma ScanStop(s: seq<int>, low: int, high: int, pivot: int, t: seq<int>, i: int, steps: seq<Step>)
    requires 0 <= low < high < |s|
    requires ScanFrom(s, high, pivot, low - 1, low) == Scan(t, i, steps)
    ensures low - 1 <= i < high && i + 1 - low == CountBelow(s[low..high], pivot)
    ensures forall k :: low <= k <= i ==> t[k] < pivot
    ensures forall k :: i < k < high ==> pivot <= t[k]
    ensures forall k :: 0 <= k < |t| && (k < low || high <= k) ==> t[k] == s[k]
    ensures multiset(t) == multiset(s)
    ensures |steps| == (high - low) + (i + 1 - low)
    ensures Logged(steps, |t|, low, high + 1) && Rearranged(steps, s)
  {
    ScanResult(s, low, high, pivot);
  }

  /** What the whole scan of `partition` does, from `j = low` with an empty
      front part. */
  lemma ScanResult(s: seq<int>, low: int, high: int, pivot: int)
    requires 0 <= low < high < |s|
    ensures var r := ScanFrom(s, high, pivot, low - 1, low);
      && r.last + 1 - low == CountBelow(s[low..high], pivot)
      && (forall k :: low <= k <= r.last ==> r.vals[k] < pivot)
      && (forall k :: r.last < k < high ==> pivot <= r.vals[k])
      && (forall k :: 0 <= k < |s| && (k < low || high <= k) ==> r.vals[k] == s[k])
      && multiset(r.vals) == multiset(s)
      && |r.steps| == (high - low) + (r.last + 1 - low)
      && Logged(r.steps, |s|, low, high + 1) && Rearranged(r.steps, s)
  {
    ScanKeepsInv(s, low, high, pivot, low - 1, low);
    ScanFrame(s, high, pivot, low - 1, low);
    ScanPerm(s, high, pivot, low - 1, low);
    ScanCount(s, high, pivot, low - 1, low);
    ScanLogged(s, low, high, pivot, low - 1, low);
    ScanRearranged(s, high, pivot, low - 1, low);
  }

  /** One round of the scan of `partition`: record the comparison of `arr[j]`
      with the pivot and, when `arr[j]` is below it, grow the front part by
      swapping `arr[j]` in behind it and record the array after the swap. */
  method ScanOne(a: array<int>, high: int, i: int, j: int, pivot: int) returns (i': int, recorded: seq<Step>)
    requires -1 <= i < j < high < a.Length
    modifies a
    ensures i' == (if old(a[j]) < pivot then i + 1 else i)
    ensures a[..] == (if old(a[j]) < pivot then Swapped(old(a[..]), i + 1, j) else old(a[..]))
    ensures recorded == [NewStep(old(a[..]), [j, high])] + (if old(a[j]) < pivot then [NewStep(a[..], [i', j])] else [])
  {
    recorded := [NewStep(a[..], [j, high])];
    i' := i;
    if a[j] < pivot {
      i' := i + 1;
      Swap(a, i', j);
      recorded := recorded + [NewStep(a[..], [i', j])];
    }
  }

  /** `quickSortHelper(arr, low, high)`: partition, then sort both sides of
      the pivot; the array and the steps are those of the definition (see
      `QuickRunSorts` and `QuickRunRecords` for what they are). */
  method QuickSortHelper(a: array<int>, low: int, high: int) returns (steps: seq<Step>)
    requires 0 <= low <= high + 1 <= a.Length
    modifies a
    ensures QuickRun(old(a[..]), low, high) == Run(a[..], steps)
    decreases high - low
  {
    steps := [];
    if low < high {
      ghost var s0 := a[..];
      var pi, parting := Partition(a, low, high);
      ghost var s1 := a[..];
      var lower := QuickSortHelper(a, low, pi - 1);
      ghost var s2 := a[..];
      var upper := QuickSortHelper(a, pi + 1, high);
      QuickLevel(s0, low, high, s1, pi, parting, s2, lower, a[..], upper);
      steps := parting + lower + upper;
    }
  }

  /** `quickSort(arr)`: the array ends sorted and rearranged; the run opens
      and closes with un-highlighted copies, highlights only indices of the
      array and records only rearrangements of the input. */
  method QuickSort(a: array<int>) returns (steps: seq<Step>)
    modifies a
    ensures steps == QuickSortRun(old(a[..])) && a[..] == QuickRun(old(a[..]), 0, a.Length - 1).vals
    ensures Sorted(a[..]) && multiset(a[..]) == multiset(old(a[..]))
    ensures Bracketed(steps, old(a[..]), a[..])
    ensures Logged(steps, a.Length, 0, a.Length) && Rearranged(steps, old(a[..]))
  {
    ghost var orig := a[..];
    var first := NewStep(a[..], []);
    var sorting := QuickSortHelper(a, 0, a.Length - 1);
    QuickRunSorts(orig, 0, a.Length - 1);
    QuickRunRecords(orig, 0, a.Length - 1);
    assert Sorted(a[..]) by {
      forall i, j | 0 <= i < j < a.Length ensures a[i] <= a[j] {
      }
    }
    var last := NewStep(a[..], []);
    steps := [first] + sorting + [last];
    BracketLogged(first, sorting, last, a.Length);
    BracketRearranged(first, sorting, last, orig);
  }

  /** One round of the scan, as `ScanOne` performs it, is the next round of
      the defined scan: what was recorded so far plus what the defined scan
      records from here on stays the defined scan of the original array. */
  lemma ScanRound(orig: seq<int>, low: int, steps: seq<Step>, s: seq<int>, high: int, pivot: int, i: int, j: int, t: seq<int>, i': int, recorded: seq<Step>)
    requires 0 <= low <= j < high < |s| == |orig| && -1 <= low - 1 <= i < j
    requires var rest := ScanFrom(s, high, pivot, i, j);
      ScanFrom(orig, high, pivot, low - 1, low) == Scan(rest.vals, rest.last, steps + rest.steps)
    requires t == (if s[j] < pivot then Swapped(s, i + 1, j) else s)
    requires i' == (if s[j] < pivot then i + 1 else i)
    requires recorded == [NewStep(s, [j, high])] + (if s[j] < pivot then [NewStep(t, [i', j])] else [])
    ensures var rest := ScanFrom(t, high, pivot, i', j + 1);
      ScanFrom(orig, high, pivot, low - 1, low) == Scan(rest.vals, rest.last, (steps + recorded) + rest.steps)
  {
    AppendAssoc(steps, recorded, ScanFrom(t, high, pivot, i', j + 1).steps);
  }

  /** The scan followed by the swap of the pivot, as `Partition` performs
      them, is the defined partition. */
  lemma PartitionClose(s: seq<int>, low: int, high: int, scanned: seq<int>, i: int, scan: seq<Step>, t: seq<int>)
    requires 0 <= low < high < |s| == |scanned| && low - 1 <= i < high
    requires ScanFrom(s, high, s[high], low - 1, low) == Scan(scanned, i, scan)
    requires t == Swapped(scanned, i + 1, high)
    ensures PartitionRun(s, low, high) == Parted(t, i + 1, scan + [NewStep(t, [i + 1, high])])
  {
  }

  /** One level of `quickSortHelper`, as the method performs it, is one
      unfolding of the defined run. */
  lemma QuickLevel(s0: seq<int>, low: int, high: int, s1: seq<int>, p: int, parting: seq<Step>, s2: seq<int>, lower: seq<Step>, s3: seq<int>, upper: seq<Step>)
    requires 0 <= low < high < |s0|
    requires PartitionRun(s0, low, high) == Parted(s1, p, parting)
    requires QuickRun(s1, low, p - 1) == Run(s2, lower)
    requires QuickRun(s2, p + 1, high) == Run(s3, upper)
    ensures QuickRun(s0, low, high) == Run(s3, parting + lower + upper)
  {
  }

  /** The front part `[low, i]` of `s` holds elements below the pivot and
      `(i, j)` elements at least the pivot. */
  predicate ScanInv(s: seq<int>, low: int, i: int, j: int, pivot: int)
    requires 0 <= low && -1 <= i < j <= |s|
  {
    && (forall k :: low <= k <= i ==> s[k] < pivot)
    && (forall k :: i < k < j ==> pivot <= s[k])
  }

  /** One round of the scan keeps the two parts apart. */
  lemma ScanInvStep(s: seq<int>, low: int, high: int, pivot: int, i: int, j: int)
    requires 0 <= low <= j < high < |s| && low - 1 <= i < j
    requires ScanInv(s, low, i, j, pivot)
    ensures s[j] < pivot ==> ScanInv(Swapped(s, i + 1, j), low, i + 1, j + 1, pivot)
    ensures pivot <= s[j] ==> ScanInv(s, low, i, j + 1, pivot)
  {
    if s[j] < pivot {
      var t := Swapped(s, i + 1, j);
      assert t[i + 1] == s[j];
      forall k | low <= k <= i + 1
        ensures t[k] < pivot
      {
        if k <= i {
          assert t[k] == s[k];
        }
      }
      forall k | i + 1 < k < j + 1
        ensures pivot <= t[k]
      {
        if k < j {
          assert t[k] == s[k];
        } else {
          assert t[j] == s[i + 1];
        }
      }
    }
  }

  /** From position `j` on, the scan keeps the two parts apart up to `high`. */
  lemma {:induction false} ScanKeepsInv(s: seq<int>, low: int, high: int, pivot: int, i: int, j: int)
    requires 0 <= low <= j <= high < |s| && low - 1 <= i < j
    requires ScanInv(s, low, i, j, pivot)
    ensures var r := ScanFrom(s, high, pivot, i, j); ScanInv(r.vals, low, r.last, high, pivot)
    decreases high - j
  {
    if j < high {
      ScanInvStep(s, low, high, pivot, i, j);
      if s[j] < pivot {
        var t := Swapped(s, i + 1, j);
        var rest := ScanFrom(t, high, pivot, i + 1, j + 1);
        assert ScanFrom(s, high, pivot, i, j).vals == rest.vals && ScanFrom(s, high, pivot, i, j).last == rest.last;
        ScanKeepsInv(t, low, high, pivot, i + 1, j + 1);
      } else {
        var rest := ScanFrom(s, high, pivot, i, j + 1);
        assert ScanFrom(s, high, pivot, i, j).vals == rest.vals && ScanFrom(s, high, pivot, i, j).last == rest.last;
        ScanKeepsInv(s, low, high, pivot, i, j + 1);
      }
    }
  }

  /** From position `j` on, the scan moves nothing up to the front part's
      end `i` nor from `high` on. */
  lemma {:induction false} ScanFrame(s: seq<int>, high: int, pivot: int, i: int, j: int)
    requires -1 <= i < j <= high < |s|
    ensures var r := ScanFrom(s, high, pivot, i, j);
      forall k :: 0 <= k < |s| && (k <= i || high <= k) ==> r.vals[k] == s[k]
    decreases high - j
  {
    if j < high {
      if s[j] < pivot {
        var t := Swapped(s, i + 1, j);
        assert ScanFrom(s, high, pivot, i, j).vals == ScanFrom(t, high, pivot, i + 1, j + 1).vals;
        ScanFrame(t, high, pivot, i + 1, j + 1);
        assert forall k :: 0 <= k < |s| && (k <= i || high <= k) ==> t[k] == s[k];
      } else {
        assert ScanFrom(s, high, pivot, i, j).vals == ScanFrom(s, high, pivot, i, j + 1).vals;
        ScanFrame(s, high, pivot, i, j + 1);
      }
    }
  }

  /** The scan only rearranges. */
  lemma {:induction false} ScanPerm(s: seq<int>, high: int, pivot: int, i: int, j: int)
    requires -1 <= i < j <= high < |s|
    ensures multiset(ScanFrom(s, high, pivot, i, j).vals) == multiset(s)
    decreases high - j
  {
    if j < high {
      if s[j] < pivot {
        var t := Swapped(s, i + 1, j);
        assert ScanFrom(s, high, pivot, i, j).vals == ScanFrom(t, high, pivot, i + 1, j + 1).vals;
        SwappedPerm(s, i + 1, j);
        ScanPerm(t, high, pivot, i + 1, j + 1);
      } else {
        assert ScanFrom(s, high, pivot, i, j).vals == ScanFrom(s, high, pivot, i, j + 1).vals;
        ScanPerm(s, high, pivot, i, j + 1);
      }
    }
  }

  /** From position `j` on, the scan grows the front part by the number of
      elements of `s[j..high]` below the pivot, and records one step per
      comparison and one per swap. */
  lemma {:induction false} ScanCount(s: seq<int>, high: int, pivot: int, i: int, j: int)
    requires -1 <= i < j <= high < |s|
    ensures var r := ScanFrom(s, high, pivot, i, j);
      && r.last - i == CountBelow(s[j..high], pivot)
      && |r.steps| == (high - j) + (r.last - i)
    decreases high - j
  {
    if j < high {
      assert s[j..high][0] == s[j] && s[j..high][1..] == s[j + 1..high];
      if s[j] < pivot {
        var t := Swapped(s, i + 1, j);
        var rest := ScanFrom(t, high, pivot, i + 1, j + 1);
        assert ScanFrom(s, high, pivot, i, j) == Scan(rest.vals, rest.last, [NewStep(s, [j, high]), NewStep(t, [i + 1, j])] + rest.steps);
        ScanCount(t, high, pivot, i + 1, j + 1);
        assert t[j + 1..high] == s[j + 1..high];
      } else {
        var rest := ScanFrom(s, high, pivot, i, j + 1);
        assert ScanFrom(s, high, pivot, i, j) == Scan(rest.vals, rest.last, [NewStep(s, [j, high])] + rest.steps);
        ScanCount(s, high, pivot, i, j + 1);
      }
    }
  }

  /** Every step the scan records from position `j` on highlights indices
      inside `[low, high]`. */
  lemma {:induction false} ScanLogged(s: seq<int>, low: int, high: int, pivot: int, i: int, j: int)
    requires 0 <= low <= j <= high < |s| && low - 1 <= i < j
    ensures Logged(ScanFrom(s, high, pivot, i, j).steps, |s|, low, high + 1)
    decreases high - j
  {
    if j < high {
      var compared := NewStep(s, [j, high]);
      if s[j] < pivot {
        var t := Swapped(s, i + 1, j);
        var rest := ScanFrom(t, high, pivot, i + 1, j + 1).steps;
        var swapped := NewStep(t, [i + 1, j]);
        assert ScanFrom(s, high, pivot, i, j).steps == [compared, swapped] + rest;
        ScanLogged(t, low, high, pivot, i + 1, j + 1);
        assert Logged([compared, swapped], |s|, low, high + 1);
        LoggedAppend([compared, swapped], rest, |s|, low, high + 1);
      } else {
        var rest := ScanFrom(s, high, pivot, i, j + 1).steps;
        assert ScanFrom(s, high, pivot, i, j).steps == [compared] + rest;
        ScanLogged(s, low, high, pivot, i, j + 1);
        LoggedAppend([compared], rest, |s|, low, high + 1);
      }
    }
  }

  /** Every step the scan records from position `j` on copies a
      rearrangement of `s`. */
  lemma {:induction false} ScanRearranged(s: seq<int>, high: int, pivot: int, i: int, j: int)
    requires -1 <= i < j <= high < |s|
    ensures Rearranged(ScanFrom(s, high, pivot, i, j).steps, s)
    decreases high - j
  {
    if j < high {
      var compared := NewStep(s, [j, high]);
      if s[j] < pivot {
        var t := Swapped(s, i + 1, j);
        var rest := ScanFrom(t, high, pivot, i + 1, j + 1).steps;
        var swapped := NewStep(t, [i + 1, j]);
        assert ScanFrom(s, high, pivot, i, j).steps == [compared, swapped] + rest;
        SwappedPerm(s, i + 1, j);
        ScanRearranged(t, high, pivot, i + 1, j + 1);
        RearrangedAppend([compared, swapped], rest, s);
      } else {
        var rest := ScanFrom(s, high, pivot, i, j + 1).steps;
        assert ScanFrom(s, high, pivot, i, j).steps == [compared] + rest;
        ScanRearranged(s, high, pivot, i, j + 1);
        RearrangedAppend([compared], rest, s);
      }
    }
  }

  /** `partition` returns `low` plus the number of elements of
      `[low, high)` below the pivot. */
  lemma PartitionCount(s: seq<int>, low: int, high: int)
    requires 0 <= low < high < |s|
    ensures PartitionRun(s, low, high).pivotAt == low + CountBelow(s[low..high], s[high])
  {
    ScanCount(s, high, s[high], low - 1, low);
  }

  /** Swapping the pivot at `high` behind a front part `[low, p)` of smaller
      elements puts it between them and the elements at least it. */
  lemma PivotSwap(v: seq<int>, low: int, p: int, high: int, pivot: int)
    requires 0 <= low <= p <= high < |v| && v[high] == pivot
    requires ScanInv(v, low, p - 1, high, pivot)
    ensures var t := Swapped(v, p, high);
      && t[p] == pivot
      && (forall k :: low <= k < p ==> t[k] < pivot)
      && (forall k :: p < k <= high ==> pivot <= t[k])
  {
    var t := Swapped(v, p, high);
    forall k | low <= k < p
      ensures t[k] < pivot
    {
      assert t[k] == v[k];
    }
    forall k | p < k <= high
      ensures pivot <= t[k]
    {
      if k < high {
        assert t[k] == v[k];
      } else {
        assert t[high] == v[p];
      }
    }
  }

  /** After `partition` the pivot sits at the returned index, the elements
      before it in the range are below it and those after it are not. */
  lemma PartitionSides(s: seq<int>, low: int, high: int)
    requires 0 <= low < high < |s|
    ensures var r := PartitionRun(s, low, high);
      && r.vals[r.pivotAt] == s[high]
      && (forall k :: low <= k < r.pivotAt ==> r.vals[k] < r.vals[r.pivotAt])
      && (forall k :: r.pivotAt < k <= high ==> r.vals[r.pivotAt] <= r.vals[k])
  {
    var pivot := s[high];
    var scan := ScanFrom(s, high, pivot, low - 1, low);
    ScanKeepsInv(s, low, high, pivot, low - 1, low);
    ScanFrame(s, high, pivot, low - 1, low);
    PivotSwap(scan.vals, low, scan.last + 1, high, pivot);
  }

  /** `s1` is `s0` partitioned around the pivot at `p`: nothing outside
      `[lo, hi]` moved, the multiset kept, the elements before the pivot in
      the range below it and those after it not. */
  predicate PartitionedAt(s0: seq<int>, s1: seq<int>, lo: int, p: int, hi: int)
    requires 0 <= lo <= p <= hi < |s0| == |s1|
  {
    && (forall k :: 0 <= k < |s1| && (k < lo || hi < k) ==> s1[k] == s0[k])
    && multiset(s1) == multiset(s0)
    && (forall k :: lo <= k < p ==> s1[k] < s1[p])
    && (forall k :: p < k <= hi ==> s1[p] <= s1[k])
  }

  /** `partition` partitions its range around the pivot it returns. */
  lemma PartitionShape(s: seq<int>, low: int, high: int)
    requires 0 <= low < high < |s|
    ensures var r := PartitionRun(s, low, high); PartitionedAt(s, r.vals, low, r.pivotAt, high)
  {
    PartitionSides(s, low, high);
    PartitionFrame(s, low, high);
  }

  /** `partition` moves nothing outside `[low, high]` and keeps the
      multiset. */
  lemma PartitionFrame(s: seq<int>, low: int, high: int)
    requires 0 <= low < high < |s|
    ensures var r := PartitionRun(s, low, high);
      && (forall k :: 0 <= k < |s| && (k < low || high < k) ==> r.vals[k] == s[k])
      && multiset(r.vals) == multiset(s)
  {
    var scan := ScanFrom(s, high, s[high], low - 1, low);
    ScanFrame(s, high, s[high], low - 1, low);
    ScanPerm(s, high, s[high], low - 1, low);
    SwappedPerm(scan.vals, scan.last + 1, high);
  }

  /** `partition` records `(high - low) + (p - low) + 1` steps: one per
      comparison, one per swap inside the scan and one for the pivot. */
  lemma PartitionRecords(s: seq<int>, low: int, high: int)
    requires 0 <= low < high < |s|
    ensures var r := PartitionRun(s, low, high);
      |r.steps| == (high - low) + (r.pivotAt - low) + 1
  {
    ScanCount(s, high, s[high], low - 1, low);
  }

  /** Every step of `partition` highlights indices inside `[low, high]` and
      copies a rearrangement of the input. */
  lemma PartitionLogged(s: seq<int>, low: int, high: int)
    requires 0 <= low < high < |s|
    ensures var r := PartitionRun(s, low, high);
      Logged(r.steps, |s|, low, high + 1) && Rearranged(r.steps, s)
  {
    var pivot := s[high];
    var scan := ScanFrom(s, high, pivot, low - 1, low);
    var p := scan.last + 1;
    var t := Swapped(scan.vals, p, high);
    var last := NewStep(t, [p, high]);
    assert PartitionRun(s, low, high).steps == scan.steps + [last];
    ScanLogged(s, low, high, pivot, low - 1, low);
    ScanRearranged(s, high, pivot, low - 1, low);
    assert multiset(t) == multiset(s) by {
      ScanPerm(s, high, pivot, low - 1, low);
      SwappedPerm(scan.vals, p, high);
    }
    LoggedSnoc(scan.steps, last, |s|, low, high + 1);
    RearrangedSnoc(scan.steps, last, s);
  }

  /** `quickSortHelper(arr, low, high)` only rearranges. */
  lemma {:induction false} QuickRunPerm(s: seq<int>, low: int, high: int)
    requires 0 <= low <= high + 1 <= |s|
    ensures multiset(QuickRun(s, low, high).vals) == multiset(s)
    decreases high - low
  {
    if low < high {
      var part := PartitionRun(s, low, high);
      var lower := QuickRun(part.vals, low, part.pivotAt - 1);
      var upper := QuickRun(lower.vals, part.pivotAt + 1, high);
      assert QuickRun(s, low, high).vals == upper.vals;
      PartitionFrame(s, low, high);
      QuickRunPerm(part.vals, low, part.pivotAt - 1);
      QuickRunPerm(lower.vals, part.pivotAt + 1, high);
    }
  }

  /** `quickSortHelper(arr, low, high)` sorts `[low, high]` in place. */
  lemma {:induction false} QuickRunSorts(s: seq<int>, low: int, high: int)
    requires 0 <= low <= high + 1 <= |s|
    ensures SortedInPlace(s, QuickRun(s, low, high).vals, low, high)
    decreases high - low
  {
    if low < high {
      var part := PartitionRun(s, low, high);
      var p := part.pivotAt;
      var lower := QuickRun(part.vals, low, p - 1);
      var upper := QuickRun(lower.vals, p + 1, high);
      assert QuickRun(s, low, high).vals == upper.vals;
      PartitionShape(s, low, high);
      QuickRunSorts(part.vals, low, p - 1);
      QuickRunSorts(lower.vals, p + 1, high);
      PartitionLevel(s, part.vals, lower.vals, upper.vals, low, p, high);
    }
  }

  /** Every step of `quickSortHelper(arr, low, high)` highlights only indices
      inside `[low, high]` and records a rearrangement of its input. */
  lemma {:induction false} QuickRunRecords(s: seq<int>, low: int, high: int)
    requires 0 <= low <= high + 1 <= |s|
    ensures Logged(QuickRun(s, low, high).steps, |s|, low, high + 1)
    ensures Rearranged(QuickRun(s, low, high).steps, s)
    decreases high - low
  {
    if low < high {
      var part := PartitionRun(s, low, high);
      var p := part.pivotAt;
      var lower := QuickRun(part.vals, low, p - 1);
      var upper := QuickRun(lower.vals, p + 1, high);
      assert QuickRun(s, low, high).steps == part.steps + lower.steps + upper.steps;
      PartitionLogged(s, low, high);
      assert multiset(part.vals) == multiset(s) by {
        PartitionFrame(s, low, high);
      }
      QuickRunPerm(part.vals, low, p - 1);
      QuickRunRecords(part.vals, low, p - 1);
      QuickRunRecords(lower.vals, p + 1, high);
      QuickLogged(s, part.vals, lower.vals, part.steps, lower.steps, upper.steps, |s|, low, p, high);
    }
  }

  /** One level of `quickSortHelper`: a partition around the pivot at `p`,
      then both sides sorted in place, leave the range sorted in place. */
  lemma PartitionLevel(s0: seq<int>, s1: seq<int>, s2: seq<int>, s3: seq<int>, lo: int, p: int, hi: int)
    requires 0 <= lo <= p <= hi < |s0| == |s1| && PartitionedAt(s0, s1, lo, p, hi)
    requires |s2| == |s1| && SortedInPlace(s1, s2, lo, p - 1)
    requires |s3| == |s2| && SortedInPlace(s2, s3, p + 1, hi)
    ensures SortedInPlace(s0, s3, lo, hi)
  {
    var pivot := s1[p];
    assert forall k :: lo <= k < p ==> s3[k] < pivot by {
      RangePerm(s1, s2, lo, p - 1);
      BelowPerm(s1, s2, lo, p, pivot);
    }
    assert forall k :: p < k <= hi ==> pivot <= s3[k] by {
      RangePerm(s2, s3, p + 1, hi);
      AtLeastPerm(s2, s3, p + 1, hi + 1, pivot);
    }
    assert s3[p] == pivot;
  }

  /** Sorting `[lo, hi]` in place keeps the multiset of the range itself. */
  lemma RangePerm(s: seq<int>, t: seq<int>, lo: int, hi: int)
    requires 0 <= lo <= hi + 1 <= |s| == |t| && SortedInPlace(s, t, lo, hi)
    ensures multiset(s[lo..hi + 1]) == multiset(t[lo..hi + 1])
  {
    assert s[..lo] == t[..lo];
    assert s[hi + 1..] == t[hi + 1..];
    assert s == s[..lo] + s[lo..hi + 1] + s[hi + 1..];
    assert t == t[..lo] + t[lo..hi + 1] + t[hi + 1..];
    var outside := multiset(s[..lo]) + multiset(s[hi + 1..]);
    assert multiset(s) == outside + multiset(s[lo..hi + 1]);
    assert multiset(t) == outside + multiset(t[lo..hi + 1]);
    Cancel(outside, multiset(s[lo..hi + 1]), multiset(t[lo..hi + 1]));
  }

  lemma Cancel(a: multiset<int>, b: multiset<int>, c: multiset<int>)
    requires a + b == a + c
    ensures b == c
  {
    assert forall x :: b[x] == (a + b)[x] - a[x];
  }

  /** Elements below `x` in `[lo, hi)` stay below it under a rearrangement of
      the range. */
  lemma BelowPerm(s: seq<int>, t: seq<int>, lo: int, hi: int, x: int)
    requires 0 <= lo <= hi <= |s| == |t| && multiset(s[lo..hi]) == multiset(t[lo..hi])
    requires forall k :: lo <= k < hi ==> s[k] < x
    ensures forall k :: lo <= k < hi ==> t[k] < x
  {
    assert AllBelow(s[lo..hi], x) by {
      forall k | 0 <= k < hi - lo ensures s[lo..hi][k] < x {
        assert s[lo..hi][k] == s[lo + k];
      }
    }
    BoundsPerm(s[lo..hi], t[lo..hi], x);
    forall k | lo <= k < hi ensures t[k] < x {
      assert t[k] == t[lo..hi][k - lo];
    }
  }

  /** Elements at least `x` in `[lo, hi)` stay so under a rearrangement of the
      range. */
  lemma AtLeastPerm(s: seq<int>, t: seq<int>, lo: int, hi: int, x: int)
    requires 0 <= lo <= hi <= |s| == |t| && multiset(s[lo..hi]) == multiset(t[lo..hi])
    requires forall k :: lo <= k < hi ==> x <= s[k]
    ensures forall k :: lo <= k < hi ==> x <= t[k]
  {
    assert AllAtLeast(s[lo..hi], x) by {
      forall k | 0 <= k < hi - lo ensures x <= s[lo..hi][k] {
        assert s[lo..hi][k] == s[lo + k];
      }
    }
    BoundsPerm(s[lo..hi], t[lo..hi], x);
    forall k | lo <= k < hi ensures x <= t[k] {
      assert t[k] == t[lo..hi][k - lo];
    }
  }

  /** The steps of one level stay inside its range and record rearrangements
      of the array the level started from. */
  lemma QuickLogged(s0: seq<int>, s1: seq<int>, s2: seq<int>, parting: seq<Step>, lower: seq<Step>, upper: seq<Step>, n: int, lo: int, p: int, hi: int)
    requires 0 <= lo <= p <= hi < n
    requires multiset(s1) == multiset(s0) && multiset(s2) == multiset(s1)
    requires Logged(parting, n, lo, hi + 1) && Logged(lower, n, lo, p) && Logged(upper, n, p + 1, hi + 1)
    requires Rearranged(parting, s0) && Rearranged(lower, s1) && Rearranged(upper, s2)
    ensures Logged(parting + lower + upper, n, lo, hi + 1) && Rearranged(parting + lower + upper, s0)
  {
    LoggedWiden(lower, n, lo, p, lo, hi + 1);
    LoggedWiden(upper, n, p + 1, hi + 1, lo, hi + 1);
    LoggedAppend(parting, lower, n, lo, hi + 1);
    LoggedAppend(parting + lower, upper, n, lo, hi + 1);
    RearrangedAppend(parting, lower, s0);
    RearrangedAppend(parting + lower, upper, s0);
  }
}
