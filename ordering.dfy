/** Orderings, rearrangements and inversion counts shared by the drivers, and
    the element swap every exchanging driver performs. */
module Ordering {

  /** Non-descending order: every element is at most every later one. */
  predicate Sorted(s: seq<int>) {
    forall i, j :: 0 <= i < j < |s| ==> s[i] <= s[j]
  }

  /** The test `isSorted` performs: every adjacent pair is in order. */
  predicate AdjacentSorted(s: seq<int>) {
    forall i :: 0 <= i < |s| - 1 ==> s[i] <= s[i + 1]
  }

  /** Checking adjacent pairs is enough to establish non-descending order. */
  lemma {:induction false} AdjacentSortedIffSorted(s: seq<int>)
    ensures AdjacentSorted(s) <==> Sorted(s)
  {
    if AdjacentSorted(s) {
      forall i, j | 0 <= i < j < |s| ensures s[i] <= s[j] {
        var k := i;
        while k < j
          invariant i <= k <= j
          invariant s[i] <= s[k]
        {
          assert s[k] <= s[k + 1];
          k := k + 1;
        }
      }
    }
  }

  /** Number of elements of `s` strictly greater than `x`. */
  function CountAbove(s: seq<int>, x: int): (c: nat)
    ensures c <= |s|
  {
    if s == [] then 0
    else CountAbove(s[..|s| - 1], x) + (if s[|s| - 1] > x then 1 else 0)
  }

  /** Number of pairs `i < j` with `s[i] > s[j]`, counted for each `j` against
      the elements before it. */
  function Inversions(s: seq<int>): nat {
    if s == [] then 0
    else Inversions(s[..|s| - 1]) + CountAbove(s[..|s| - 1], s[|s| - 1])
  }

  lemma {:induction false} CountAboveAppend(s: seq<int>, t: seq<int>, x: int)
    ensures CountAbove(s + t, x) == CountAbove(s, x) + CountAbove(t, x)
    decreases |t|
  {
    if t == [] {
      assert s + t == s;
    } else {
      assert (s + t)[..|s + t| - 1] == s + t[..|t| - 1];
      CountAboveAppend(s, t[..|t| - 1], x);
    }
  }

  /** How many elements exceed `x` depends only on the multiset of elements. */
  lemma {:induction false} CountAbovePerm(s: seq<int>, t: seq<int>, x: int)
    requires multiset(s) == multiset(t)
    ensures CountAbove(s, x) == CountAbove(t, x)
    decreases |s|
  {
    if s == [] {
      assert |t| == |multiset(t)| == 0;
    } else {
      var e := s[|s| - 1];
      assert s == s[..|s| - 1] + [e];
      assert e in multiset(t);
      var k :| 0 <= k < |t| && t[k] == e;
      assert t == t[..k] + [e] + t[k + 1..];
      var rest := t[..k] + t[k + 1..];
      assert multiset(s) == multiset(s[..|s| - 1]) + multiset{e};
      assert multiset(t) == multiset(t[..k]) + multiset{e} + multiset(t[k + 1..]);
      assert multiset(rest) == multiset(t[..k]) + multiset(t[k + 1..]);
      assert multiset(s[..|s| - 1]) == multiset(s) - multiset{e};
      assert multiset(rest) == multiset(t) - multiset{e};
      CountAbovePerm(s[..|s| - 1], rest, x);
      CountAboveAppend(t[..k], t[k + 1..], x);
      CountAboveAppend(t[..k] + [e], t[k + 1..], x);
      CountAboveAppend(t[..k], [e], x);
      assert CountAbove([e], x) == CountAbove(s, x) - CountAbove(s[..|s| - 1], x) by {
        assert [e][..0] == [];
      }
    }
  }

  /** A sorted sequence has no element above its last one among the earlier ones. */
  lemma {:induction false} SortedHasNoInversions(s: seq<int>)
    requires Sorted(s)
    ensures Inversions(s) == 0
    decreases |s|
  {
    if s != [] {
      var init := s[..|s| - 1];
      assert Sorted(init);
      SortedHasNoInversions(init);
      NoneAbove(init, s[|s| - 1]);
    }
  }

  lemma {:induction false} NoneAbove(s: seq<int>, x: int)
    requires forall k :: 0 <= k < |s| ==> s[k] <= x
    ensures CountAbove(s, x) == 0
    decreases |s|
  {
    if s != [] {
      NoneAbove(s[..|s| - 1], x);
    }
  }

  lemma {:induction false} AllAbove(s: seq<int>, x: int)
    requires forall k :: 0 <= k < |s| ==> s[k] > x
    ensures CountAbove(s, x) == |s|
    decreases |s|
  {
    if s != [] {
      AllAbove(s[..|s| - 1], x);
    }
  }

  /** `s` with the elements at `i` and `j` exchanged. */
  function Swapped(s: seq<int>, i: int, j: int): seq<int>
    requires 0 <= i < |s| && 0 <= j < |s|
  {
    s[i := s[j]][j := s[i]]
  }

  lemma SwappedPerm(s: seq<int>, i: int, j: int)
    requires 0 <= i < |s| && 0 <= j < |s|
    ensures multiset(Swapped(s, i, j)) == multiset(s)
  {
    if i < j {
      SwappedPermOrdered(s, i, j);
    } else if j < i {
      assert Swapped(s, i, j) == Swapped(s, j, i);
      SwappedPermOrdered(s, j, i);
    }
  }

  lemma SwappedPermOrdered(s: seq<int>, i: int, j: int)
    requires 0 <= i < j < |s|
    ensures multiset(Swapped(s, i, j)) == multiset(s)
  {
    var a, b, c := s[..i], s[i + 1..j], s[j + 1..];
    assert s == a + [s[i]] + b + [s[j]] + c;
    assert Swapped(s, i, j) == a + [s[j]] + b + [s[i]] + c;
  }

  /** Exchanging an adjacent out-of-order pair removes exactly one inversion:
      the reason bubble sort swaps exactly `Inversions(input)` times. */
  lemma {:induction false} AdjacentSwapRemovesInversion(s: seq<int>, p: nat)
    requires p + 1 < |s| && s[p] > s[p + 1]
    ensures Inversions(Swapped(s, p, p + 1)) + 1 == Inversions(s)
    decreases |s|
  {
    var t := Swapped(s, p, p + 1);
    var m := |s| - 1;
    assert t[m] == s[m] || p + 1 == m;
    if p + 1 < m {
      SwapBeforeLast(s, p);
    } else {
      SwapAtEnd(s, p);
    }
  }

  lemma {:induction false} SwapBeforeLast(s: seq<int>, p: nat)
    requires p + 2 < |s| && s[p] > s[p + 1]
    ensures Inversions(Swapped(s, p, p + 1)) + 1 == Inversions(s)
    decreases |s|, 0
  {
    var t := Swapped(s, p, p + 1);
    var m := |s| - 1;
    var si, ti := s[..m], t[..m];
    assert ti == Swapped(si, p, p + 1);
    assert t[m] == s[m];
    AdjacentSwapRemovesInversion(si, p);
    SwappedPerm(si, p, p + 1);
    CountAbovePerm(ti, si, s[m]);
    assert Inversions(t) == Inversions(ti) + CountAbove(ti, t[m]);
    assert Inversions(s) == Inversions(si) + CountAbove(si, s[m]);
  }

  lemma SwapAtEnd(s: seq<int>, p: nat)
    requires p + 2 == |s| && s[p] > s[p + 1]
    ensures Inversions(Swapped(s, p, p + 1)) + 1 == Inversions(s)
  {
    var t := Swapped(s, p, p + 1);
    var u := s[..p];
    var x, y := s[p], s[p + 1];
    assert s == u + [x] + [y] && t == u + [y] + [x];
    assert s[..p + 1] == u + [x] && t[..p + 1] == u + [y];
    assert (u + [x])[..p] == u && (u + [y])[..p] == u;
    assert Inversions(s) == Inversions(u) + CountAbove(u, x) + CountAbove(u + [x], y);
    assert Inversions(t) == Inversions(u) + CountAbove(u, y) + CountAbove(u + [y], x);
    CountAboveAppend(u, [x], y);
    CountAboveAppend(u, [y], x);
    assert [x][..0] == [] && [y][..0] == [];
  }

  /** Sum of the inner-loop lengths `n - 1 - t` of the passes `t < i`. */
  function Comparisons(n: int, i: nat): int {
    if i == 0 then 0 else Comparisons(n, i - 1) + (n - i)
  }

  lemma {:induction false} ComparisonsClosedForm(n: int, i: nat)
    ensures 2 * Comparisons(n, i) == i * (2 * n - 1 - i)
  {
    if i > 0 {
      ComparisonsClosedForm(n, i - 1);
      assert i * (2 * n - 1 - i) == (i - 1) * (2 * n - 1 - (i - 1)) + 2 * (n - i) by {
        assert (i - 1) * (2 * n - i) == i * (2 * n - i) - (2 * n - i);
        assert i * (2 * n - 1 - i) == i * (2 * n - i) - i;
      }
    }
  }

  /** The passes `0 .. n - 2` of bubble and selection sort compare `n(n-1)/2` pairs. */
  lemma AllPassesCompare(n: nat)
    ensures Comparisons(n, if n == 0 then 0 else n - 1) == n * (n - 1) / 2
  {
    if n > 0 {
      ComparisonsClosedForm(n, n - 1);
      assert (n - 1) * (2 * n - 1 - (n - 1)) == (n - 1) * n;
    }
  }

  /** Stable merge of two runs: on equal heads the left run's element goes first. */
  function Merge(l: seq<int>, r: seq<int>): (m: seq<int>)
    ensures |m| == |l| + |r|
    decreases |l| + |r|
  {
    if l == [] then r
    else if r == [] then l
    else if l[0] <= r[0] then [l[0]] + Merge(l[1..], r)
    else [r[0]] + Merge(l, r[1..])
  }

  /** A merge is a rearrangement of its two runs together. */
  lemma {:induction false} MergePerm(l: seq<int>, r: seq<int>)
    ensures multiset(Merge(l, r)) == multiset(l) + multiset(r)
    decreases |l| + |r|
  {
    if l != [] && r != [] {
      if l[0] <= r[0] {
        MergePerm(l[1..], r);
        assert Merge(l, r) == [l[0]] + Merge(l[1..], r);
        assert multiset(l) == multiset([l[0]]) + multiset(l[1..]) by {
          assert l == [l[0]] + l[1..];
        }
      } else {
        MergePerm(l, r[1..]);
        assert Merge(l, r) == [r[0]] + Merge(l, r[1..]);
        assert multiset(r) == multiset([r[0]]) + multiset(r[1..]) by {
          assert r == [r[0]] + r[1..];
        }
      }
    }
  }

  /** Merging two sorted runs yields a sorted run. */
  lemma {:induction false} MergeSorted(l: seq<int>, r: seq<int>)
    requires Sorted(l) && Sorted(r)
    ensures Sorted(Merge(l, r))
    decreases |l| + |r|
  {
    if l != [] && r != [] {
      var m := Merge(l, r);
      if l[0] <= r[0] {
        var rest := Merge(l[1..], r);
        MergeSorted(l[1..], r);
        MergePerm(l[1..], r);
        forall k | 0 <= k < |rest| ensures l[0] <= rest[k] {
          assert rest[k] in multiset(l[1..]) + multiset(r);
        }
        HeadThenSorted(l[0], rest);
      } else {
        var rest := Merge(l, r[1..]);
        MergeSorted(l, r[1..]);
        MergePerm(l, r[1..]);
        forall k | 0 <= k < |rest| ensures r[0] <= rest[k] {
          assert rest[k] in multiset(l) + multiset(r[1..]);
        }
        HeadThenSorted(r[0], rest);
      }
    }
  }

  lemma HeadThenSorted(x: int, s: seq<int>)
    requires Sorted(s) && forall k :: 0 <= k < |s| ==> x <= s[k]
    ensures Sorted([x] + s)
  {
    var t := [x] + s;
    forall i, j | 0 <= i < j < |t| ensures t[i] <= t[j] {
      if i > 0 { assert t[i] == s[i - 1] && t[j] == s[j - 1]; } else { assert t[j] == s[j - 1]; }
    }
  }

  /** Every element of `t` is strictly below `x` / at least `x`. */
  predicate AllBelow(t: seq<int>, x: int) {
    forall k :: 0 <= k < |t| ==> t[k] < x
  }
  predicate AllAtLeast(t: seq<int>, x: int) {
    forall k :: 0 <= k < |t| ==> x <= t[k]
  }

  /** Bounds on all elements survive any rearrangement. */
  lemma BoundsPerm(s: seq<int>, t: seq<int>, x: int)
    requires multiset(s) == multiset(t)
    ensures AllBelow(s, x) ==> AllBelow(t, x)
    ensures AllAtLeast(s, x) ==> AllAtLeast(t, x)
  {
    forall k | 0 <= k < |t| ensures t[k] in s {
      assert t[k] in multiset(t);
    }
  }

  /** The multiset of a whole sequence is kept when only the slice `[lo, hi)` is
      rearranged. */
  lemma SlicePerm(s: seq<int>, t: seq<int>, lo: int, hi: int)
    requires 0 <= lo <= hi <= |s| == |t|
    requires s[..lo] == t[..lo] && s[hi..] == t[hi..]
    requires multiset(s[lo..hi]) == multiset(t[lo..hi])
    ensures multiset(s) == multiset(t)
  {
    assert s == s[..lo] + s[lo..hi] + s[hi..];
    assert t == t[..lo] + t[lo..hi] + t[hi..];
  }

  /** `after` is `before` with `[lo, hi]` sorted in place: the range sorted,
      the whole array rearranged, everything outside the range unchanged. */
  predicate SortedInPlace(before: seq<int>, after: seq<int>, lo: int, hi: int)
    requires 0 <= lo <= hi + 1 <= |before| == |after|
  {
    && (forall k :: 0 <= k < |after| && (k < lo || hi < k) ==> after[k] == before[k])
    && (forall i, j :: lo <= i < j <= hi ==> after[i] <= after[j])
    && multiset(after) == multiset(before)
  }

  /** Sorting the whole sequence in place sorts it and only rearranges it. */
  lemma WholeSortedInPlace(before: seq<int>, after: seq<int>)
    requires |before| == |after| && SortedInPlace(before, after, 0, |before| - 1)
    ensures Sorted(after) && multiset(after) == multiset(before)
  {
    forall i, j | 0 <= i < j < |after| ensures after[i] <= after[j] {
      assert 0 <= i < j <= |before| - 1;
    }
  }

  /** A range sorted index by index is a sorted slice, and back. */
  lemma RangeSorted(s: seq<int>, lo: int, hi: int)
    requires 0 <= lo <= hi < |s| && forall i, j :: lo <= i < j <= hi ==> s[i] <= s[j]
    ensures Sorted(s[lo..hi + 1])
  {
    var r := s[lo..hi + 1];
    forall i, j | 0 <= i < j < |r| ensures r[i] <= r[j] {
      assert r[i] == s[lo + i] && r[j] == s[lo + j];
    }
  }

  lemma SortedRange(s: seq<int>, lo: int, hi: int)
    requires 0 <= lo <= hi < |s| && Sorted(s[lo..hi + 1])
    ensures forall i, j :: lo <= i < j <= hi ==> s[i] <= s[j]
  {
    var r := s[lo..hi + 1];
    forall i, j | lo <= i < j <= hi ensures s[i] <= s[j] {
      assert s[i] == r[i - lo] && s[j] == r[j - lo];
    }
  }

  /** `a[i]` and `a[j]` exchanged (the three-assignment swap through `temp`). */
  method Swap(a: array<int>, i: int, j: int)
    requires 0 <= i < a.Length && 0 <= j < a.Length
    modifies a
    ensures a[..] == Swapped(old(a[..]), i, j)
    ensures a[i] == old(a[j]) && a[j] == old(a[i])
    ensures forall k :: 0 <= k < a.Length && k != i && k != j ==> a[k] == old(a[k])
    ensures multiset(a[..]) == multiset(old(a[..]))
  {
    SwappedPerm(a[..], i, j);
    var temp := a[i];
    a[i] := a[j];
    a[j] := temp;
  }
}
