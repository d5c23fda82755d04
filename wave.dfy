/** The wave animation (`waveAnimation` in Java, `waveSort` in JavaScript):
    not a sort but `5n` left rotations by one, each recorded with the last
    position highlighted. After `k` rotations position `i` holds the input's
    element `(i + k) mod n`, so after `5n` the array is the input again. */
module Wave {
  import opened Snapshots

  /** One left rotation: the first element moves to the end (the Java
      `arraycopy` and write-back, the JavaScript `shift` and `push`). */
  function RotateLeft(s: seq<int>): (t: seq<int>)
    requires |s| > 0
    ensures |t| == |s| && t[|s| - 1] == s[0] && forall i :: 0 <= i < |s| - 1 ==> t[i] == s[i + 1]
  {
    s[1..] + [s[0]]
  }

  /** The input rotated left `k` times. */
  function Rotated(s: seq<int>, k: nat): (t: seq<int>)
    requires |s| > 0
    ensures |t| == |s|
  {
    if k == 0 then s else RotateLeft(Rotated(s, k - 1))
  }

  /** After `k` rotations position `i` holds the input's element
      `(i + k) mod n`. */
  lemma {:induction false} RotatedIndex(s: seq<int>, k: nat)
    requires |s| > 0
    ensures forall i :: 0 <= i < |s| ==> Rotated(s, k)[i] == s[(i + k) % |s|]
  {
    if k > 0 {
      RotatedIndex(s, k - 1);
      RotatedStep(s, Rotated(s, k - 1), k);
    }
  }

  /** One more rotation moves index `i + 1` to `i` and index `0` to the end. */
  lemma RotatedStep(s: seq<int>, prev: seq<int>, k: nat)
    requires |s| > 0 && k > 0 && prev == Rotated(s, k - 1)
    requires forall j :: 0 <= j < |s| ==> prev[j] == s[(j + (k - 1)) % |s|]
    ensures forall i :: 0 <= i < |s| ==> Rotated(s, k)[i] == s[(i + k) % |s|]
  {
    var n := |s|;
    forall i | 0 <= i < n ensures Rotated(s, k)[i] == s[(i + k) % n] {
      if i < n - 1 {
        assert Rotated(s, k)[i] == prev[i + 1] == s[(i + 1 + (k - 1)) % n];
      } else {
        assert Rotated(s, k)[i] == prev[0] == s[(0 + (k - 1)) % n];
        WrapAround(k - 1, n);
        assert i + k == k - 1 + n;
      }
    }
  }

  /** Adding `n` does not change the remainder modulo `n`. */
  lemma WrapAround(x: nat, n: int)
    requires n > 0
    ensures (x + n) % n == x % n
  {
    var q, m := x / n, x % n;
    assert x == q * n + m;
    assert x + n == (q + 1) * n + m;
    ModUnique(x + n, q + 1, m, n);
  }

  /** `n` rotations of an array of length `n`, done `q` times, give it back. */
  lemma RotatedPeriod(s: seq<int>, q: nat)
    requires |s| > 0
    ensures Rotated(s, q * |s|) == s
  {
    RotatedIndex(s, q * |s|);
    forall i | 0 <= i < |s| ensures Rotated(s, q * |s|)[i] == s[i] {
      ModUnique(i + q * |s|, q, i, |s|);
    }
  }

  /** The remainder is the one `r` in `[0, n)` with `x == q * n + r`. */
  lemma ModUnique(x: int, q: int, r: int, n: int)
    requires n > 0 && 0 <= r < n && x == q * n + r
    ensures x % n == r
  {
    var d, m := x / n, x % n;
    assert x == d * n + m;
    assert (d - q) * n == r - m;
    if d > q {
      MulAtLeast(d - q, n);
    } else if d < q {
      MulAtLeast(q - d, n);
    }
  }

  lemma {:induction false} MulAtLeast(a: int, n: int)
    requires a >= 1 && n > 0
    ensures a * n >= n
    decreases a
  {
    if a > 1 {
      MulAtLeast(a - 1, n);
      assert a * n == (a - 1) * n + n;
    }
  }

  /** Rotation only rearranges. */
  lemma {:induction false} RotatedPerm(s: seq<int>, k: nat)
    requires |s| > 0
    ensures multiset(Rotated(s, k)) == multiset(s)
  {
    if k > 0 {
      RotatedPerm(s, k - 1);
      var r := Rotated(s, k - 1);
      assert r == [r[0]] + r[1..];
    }
  }

  /** The steps recorded for rotations `1` to `k`, in order. */
  function WaveRecord(s: seq<int>, k: nat): (r: seq<Step>)
    requires |s| > 0
    ensures |r| == k
  {
    if k == 0 then [] else WaveRecord(s, k - 1) + [NewStep(Rotated(s, k), [|s| - 1])]
  }

  /** Everything a wave run records: nothing for an empty array, otherwise
      the input, the `5n` rotations and the input again. */
  function WaveRun(s: seq<int>): seq<Step> {
    if |s| == 0 then [] else [NewStep(s, [])] + WaveRecord(s, 5 * |s|) + [NewStep(s, [])]
  }

  /** The `j`-th recorded rotation is the input rotated `j + 1` times. */
  lemma {:induction false} WaveRecordIndex(s: seq<int>, k: nat)
    requires |s| > 0
    ensures forall j :: 0 <= j < k ==> WaveRecord(s, k)[j] == NewStep(Rotated(s, j + 1), [|s| - 1])
  {
    if k > 0 {
      WaveRecordIndex(s, k - 1);
    }
  }

  /** A wave run has `5n + 2` steps, starts and ends at the input, and its
      `k`-th step is the input rotated `k` times with the last position
      highlighted. */
  lemma WaveRunIndex(s: seq<int>)
    requires |s| > 0
    ensures |WaveRun(s)| == 5 * |s| + 2
    ensures WaveRun(s)[0] == NewStep(s, []) && WaveRun(s)[5 * |s| + 1] == NewStep(s, [])
    ensures forall k {:trigger WaveRun(s)[k]} :: 1 <= k <= 5 * |s| ==> WaveRun(s)[k] == NewStep(Rotated(s, k), [|s| - 1])
  {
    var steps := WaveRun(s);
    WaveRecordIndex(s, 5 * |s|);
    assert forall k {:trigger steps[k]} :: 1 <= k <= 5 * |s| ==> steps[k] == WaveRecord(s, 5 * |s|)[k - 1];
  }

  /** A wave run returns to the input and copies only rearrangements of it,
      highlighting only positions inside the array. */
  lemma WaveRunLogged(s: seq<int>)
    requires |s| > 0
    ensures Bracketed(WaveRun(s), s, s)
    ensures Logged(WaveRun(s), |s|, 0, |s|) && Rearranged(WaveRun(s), s)
  {
    WaveRunIndex(s);
    WaveLogged(s, WaveRun(s));
  }

  /** Two step lists with the same wave shape are equal. */
  lemma WaveRunUnique(s: seq<int>, steps: seq<Step>)
    requires |s| > 0 && |steps| == 5 * |s| + 2
    requires steps[0] == NewStep(s, []) && steps[|steps| - 1] == NewStep(s, [])
    requires forall k {:trigger steps[k]} :: 1 <= k <= 5 * |s| ==> steps[k] == NewStep(Rotated(s, k), [|s| - 1])
    ensures steps == WaveRun(s)
  {
    var w := WaveRun(s);
    WaveRunIndex(s);
    forall k | 0 <= k < |steps| ensures steps[k] == w[k] {
      if 1 <= k <= 5 * |s| {
        assert w[k] == NewStep(Rotated(s, k), [|s| - 1]);
      } else if k == 0 {
        assert w[0] == NewStep(s, []);
      } else {
        assert k == 5 * |s| + 1 && w[5 * |s| + 1] == NewStep(s, []);
      }
    }
  }

  /** The Java rotation step: `first = arr[0]`, `System.arraycopy(arr, 1,
      arr, 0, n - 1)`, `arr[n - 1] = first`. */
  method ShiftLeft(a: array<int>)
    requires a.Length > 0
    modifies a
    ensures a[..] == RotateLeft(old(a[..]))
  {
    var first := a[0];
    forall k | 0 <= k < a.Length - 1 {
      a[k] := a[k + 1];
    }
    a[a.Length - 1] := first;
  }

  /** Java `waveAnimation(arr)`: nothing for an empty array; otherwise the
      input, then the array after each of the `5n` rotations with the last
      position highlighted, then the final array, which is the input. */
  method WaveAnimation(a: array<int>) returns (steps: seq<Step>)
    modifies a
    ensures steps == WaveRun(old(a[..]))
    ensures a[..] == old(a[..])
    ensures a.Length == 0 ==> steps == []
    ensures a.Length > 0 ==> |steps| == 5 * a.Length + 2 && Bracketed(steps, old(a[..]), old(a[..]))
    ensures a.Length > 0 ==> forall k {:trigger steps[k]} :: 1 <= k <= 5 * a.Length ==> steps[k] == NewStep(Rotated(old(a[..]), k), [a.Length - 1])
    ensures Logged(steps, a.Length, 0, a.Length) && Rearranged(steps, old(a[..]))
  {
    var n := a.Length;
    if n == 0 {
      return [];
    }
    ghost var orig := a[..];
    assert Rotated(orig, 0) == orig;
    steps := [NewStep(a[..], [])];
    var i := 0;
    while i < n * 5
      invariant 0 <= i <= n * 5
      invariant a[..] == Rotated(orig, i)
      invariant |steps| == i + 1 && steps[0] == NewStep(orig, [])
      invariant forall k {:trigger steps[k]} :: 1 <= k <= i ==> steps[k] == NewStep(Rotated(orig, k), [n - 1])
    {
      ShiftLeft(a);
      steps := steps + [NewStep(a[..], [n - 1])];
      i := i + 1;
    }
    RotatedPeriod(orig, 5);
    assert 5 * n == n * 5;
    steps := steps + [NewStep(a[..], [])];
    WaveLogged(orig, steps);
    WaveRunUnique(orig, steps);
  }

  /** A wave run copies only rotations of the input and highlights only the
      last position. */
  lemma WaveLogged(s: seq<int>, steps: seq<Step>)
    requires |s| > 0 && |steps| >= 2
    requires steps[0] == NewStep(s, []) && steps[|steps| - 1] == NewStep(s, [])
    requires forall k {:trigger steps[k]} :: 1 <= k < |steps| - 1 ==> steps[k] == NewStep(Rotated(s, k), [|s| - 1])
    ensures Logged(steps, |s|, 0, |s|) && Rearranged(steps, s)
  {
    forall k | 0 <= k < |steps| ensures Fits(steps[k], |s|, 0, |s|) && multiset(steps[k].vals) == multiset(s) {
      if 1 <= k < |steps| - 1 {
        RotatedPerm(s, k);
      }
    }
  }

  /** JavaScript `waveSort(arr)`: the same, with the array as a growable
      list that `shift` shortens and `push` lengthens again. */
  method JsWaveSort(arr: seq<int>) returns (final: seq<int>, steps: seq<Step>)
    ensures steps == WaveRun(arr)
    ensures final == arr
    ensures |arr| == 0 ==> steps == []
    ensures |arr| > 0 ==> |steps| == 5 * |arr| + 2 && Bracketed(steps, arr, arr)
    ensures |arr| > 0 ==> forall k {:trigger steps[k]} :: 1 <= k <= 5 * |arr| ==> steps[k] == NewStep(Rotated(arr, k), [|arr| - 1])
  {
    var n := |arr|;
    final := arr;
    if n == 0 {
      return arr, [];
    }
    assert Rotated(arr, 0) == arr;
    steps := [NewStep(final, [])];
    var i := 0;
    while i < n * 5
      invariant 0 <= i <= n * 5 && |final| == n
      invariant final == Rotated(arr, i)
      invariant |steps| == i + 1 && steps[0] == NewStep(arr, [])
      invariant forall k {:trigger steps[k]} :: 1 <= k <= i ==> steps[k] == NewStep(Rotated(arr, k), [n - 1])
    {
      var first := final[0];
      final := final[1..];
      final := final + [first];
      steps := steps + [NewStep(final, [n - 1])];
      i := i + 1;
    }
    RotatedPeriod(arr, 5);
    assert 5 * n == n * 5;
    steps := steps + [NewStep(final, [])];
    WaveRunUnique(arr, steps);
  }
}
