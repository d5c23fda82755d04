/** Insertion sort, twice: the JavaScript driver `insertionSort`, which steps
    `j` back once per shift, and the Java driver of the same name, which steps
    it back twice per shift. Both record the key with its left neighbour, every
    shift, and the key once inserted. */
module Insertion {
  import opened Snapshots
  import opened Ordering

  /** Where an inner shifting loop stops: the array, the final `j` and the
      steps recorded while shifting. */
  datatype Shifted = Shifted(vals: seq<int>, j: int, steps: seq<Step>)

  /** One insertion pass: the array once the key is written back, the index it
      went to, and the steps of the pass. */
  datatype Inserted = Inserted(vals: seq<int>, pos: int, steps: seq<Step>)

  // ------------------------------------------------------------ JavaScript driver

  /** `while (j >= 0 && arr[j] > key) { arr[j + 1] = arr[j]; record (j, j + 1); j--; }` */
  function Shift(s: seq<int>, key: int, j: int): (r: Shifted)
    requires -1 <= j < |s| - 1
    ensures |r.vals| == |s| && -1 <= r.j <= j
    decreases j + 1
  {
    if j >= 0 && s[j] > key then
      var t := s[j + 1 := s[j]];
      var r := Shift(t, key, j - 1);
      Shifted(r.vals, r.j, [NewStep(t, [j, j + 1])] + r.steps)
    else
      Shifted(s, j, [])
  }

  /** Pass `i`: record `(i, i - 1)`, shift, write the key to `j + 1` and record it. */
  function Insert(s: seq<int>, i: int): (r: Inserted)
    requires 1 <= i < |s|
    ensures |r.vals| == |s|
  {
    var sh := Shift(s, s[i], i - 1);
    var t := sh.vals[sh.j + 1 := s[i]];
    Inserted(t, sh.j + 1, [NewStep(s, [i, i - 1])] + sh.steps + [NewStep(t, [sh.j + 1])])
  }

  /** The passes `i, i + 1, ..., |s| - 1`: the array left. */
  function InsertionVals(s: seq<int>, i: nat): (r: seq<int>)
    requires 1 <= i
    ensures |r| == |s|
    decreases |s| - i
  {
    if i >= |s| then s else InsertionVals(Insert(s, i).vals, i + 1)
  }

  /** ... and the steps they record. */
  function InsertionSteps(s: seq<int>, i: nat): seq<Step>
    requires 1 <= i
    decreases |s| - i
  {
    if i >= |s| then [] else Insert(s, i).steps + InsertionSteps(Insert(s, i).vals, i + 1)
  }

  /** The whole run: the initial copy, the passes, the final copy. */
  function InsertionRun(s: seq<int>): seq<Step> {
    [NewStep(s, [])] + InsertionSteps(s, 1) + [NewStep(InsertionVals(s, 1), [])]
  }

  /** Insertion sort as the JavaScript driver does it. */
  method InsertionSort(a: array<int>) returns (steps: seq<Step>)
    modifies a
    ensures a[..] == InsertionVals(old(a[..]), 1) && steps == InsertionRun(old(a[..]))
    ensures Sorted(a[..]) && multiset(a[..]) == multiset(old(a[..]))
    ensures Bracketed(steps, old(a[..]), a[..]) && Logged(steps, a.Length, 0, a.Length)
    ensures |steps| == if a.Length == 0 then 2 else 2 + 2 * (a.Length - 1) + Inversions(old(a[..]))
  {
    ghost var orig := a[..];
    steps := [NewStep(a[..], [])];
    var passes := InsertionPasses(a);
    steps := steps + passes + [NewStep(a[..], [])];
    InsertionCorrect(orig);
  }

  /** The outer loop, `i` from 1 to `n - 1`. */
  method InsertionPasses(a: array<int>) returns (steps: seq<Step>)
    modifies a
    ensures a[..] == InsertionVals(old(a[..]), 1) && steps == InsertionSteps(old(a[..]), 1)
  {
    steps := [];
    var i := 1;
    while i < a.Length
      invariant 1 <= i
      invariant InsertionVals(a[..], i) == InsertionVals(old(a[..]), 1)
      invariant steps + InsertionSteps(a[..], i) == InsertionSteps(old(a[..]), 1)
    {
      ghost var before := a[..];
      var pass := InsertPass(a, i);
      assert steps + pass + InsertionSteps(a[..], i + 1) == steps + InsertionSteps(before, i);
      steps := steps + pass;
      i := i + 1;
    }
  }

  /** The body of the outer loop, with the inner shifting loop. */
  method InsertPass(a: array<int>, i: int) returns (pass: seq<Step>)
    requires 1 <= i < a.Length
    modifies a
    ensures a[..] == Insert(old(a[..]), i).vals && pass == Insert(old(a[..]), i).steps
  {
    var key := a[i];
    var j := i - 1;
    pass := [NewStep(a[..], [i, j])];
    ghost var first := pass;
    ghost var goal := Shift(a[..], key, j);
    while j >= 0 && a[j] > key
      invariant -1 <= j <= i - 1
      invariant Shift(a[..], key, j).vals == goal.vals && Shift(a[..], key, j).j == goal.j
      invariant pass + Shift(a[..], key, j).steps == first + goal.steps
    {
      a[j + 1] := a[j];
      var shifted := [NewStep(a[..], [j, j + 1])];
      AppendAssoc(pass, shifted, Shift(a[..], key, j - 1).steps);
      pass := pass + shifted;
      j := j - 1;
    }
    a[j + 1] := key;
    pass := pass + [NewStep(a[..], [j + 1])];
  }

  /** What a shifting loop does: it stops at the first `j` (going down) whose
      element is not above the key, and moves every element it passed one
      place right; the slot `j + 1` still holds its old value. */
  lemma {:induction false} ShiftMoves(s: seq<int>, key: int, j: int)
    requires -1 <= j < |s| - 1
    ensures var r := Shift(s, key, j);
      && |r.steps| == j - r.j
      && (r.j == -1 || s[r.j] <= key)
      && (forall k :: r.j < k <= j ==> s[k] > key)
      && (forall k :: 0 <= k <= r.j + 1 ==> r.vals[k] == s[k])
      && (forall k :: r.j + 1 < k <= j + 1 ==> r.vals[k] == s[k - 1])
      && (forall k :: j + 1 < k < |s| ==> r.vals[k] == s[k])
    decreases j + 1
  {
    if j >= 0 && s[j] > key {
      var t := s[j + 1 := s[j]];
      ShiftMoves(t, key, j - 1);
      assert forall k :: 0 <= k <= j ==> t[k] == s[k];
    }
  }

  /** Where a pass puts the key: at the first position `p` of `s[..i]` from
      which every element up to `i` is above the key, the one before it (if
      any) not being above; it records the two copies and one step per shift. */
  lemma InsertStops(s: seq<int>, i: int)
    requires 1 <= i < |s|
    ensures var r := Insert(s, i);
      && 0 <= r.pos <= i
      && (r.pos == 0 || s[r.pos - 1] <= s[i])
      && (forall k :: r.pos <= k < i ==> s[k] > s[i])
      && |r.steps| == 2 + (i - r.pos)
  {
    ShiftMoves(s, s[i], i - 1);
  }

  /** A pass rotates the key into place: `s[..p] + [key] + s[p..i] + s[i + 1..]`. */
  lemma InsertShape(s: seq<int>, i: int)
    requires 1 <= i < |s|
    ensures var r := Insert(s, i);
      && 0 <= r.pos <= i
      && r.vals == s[..r.pos] + [s[i]] + s[r.pos..i] + s[i + 1..]
  {
    var key := s[i];
    var sh := Shift(s, key, i - 1);
    ShiftMoves(s, key, i - 1);
    var p := sh.j + 1;
    var t := sh.vals[p := key];
    var u := s[..p] + [key] + s[p..i] + s[i + 1..];
    assert |t| == |u|;
    forall k | 0 <= k < |t| ensures t[k] == u[k] {
      if k < p {
      } else if k == p {
      } else if k <= i {
        assert u[k] == s[p..i][k - p - 1];
      } else {
        assert u[k] == s[i + 1..][k - i - 1];
      }
    }
  }

  /** A pass keeps the array a rearrangement of its input. */
  lemma InsertPerm(s: seq<int>, i: int)
    requires 1 <= i < |s|
    ensures multiset(Insert(s, i).vals) == multiset(s)
    ensures multiset(Insert(s, i).vals[..i + 1]) == multiset(s[..i + 1])
    ensures Insert(s, i).vals[i + 1..] == s[i + 1..]
  {
    InsertShape(s, i);
    RotatePerm(s, Insert(s, i).pos, i);
  }

  /** Moving `s[i]` to position `p <= i` rearranges `s[..i + 1]` and leaves the rest. */
  lemma RotatePerm(s: seq<int>, p: int, i: int)
    requires 0 <= p <= i < |s|
    ensures var t := s[..p] + [s[i]] + s[p..i] + s[i + 1..];
      multiset(t) == multiset(s) && multiset(t[..i + 1]) == multiset(s[..i + 1]) && t[i + 1..] == s[i + 1..]
  {
    var head, mid, tail := s[..p], s[p..i], s[i + 1..];
    var rotated := head + [s[i]] + mid;
    var t := rotated + tail;
    assert s[..i + 1] == head + mid + [s[i]];
    assert s == s[..i + 1] + tail;
    assert t[..i + 1] == rotated && t[i + 1..] == tail;
    assert multiset(rotated) == multiset(head + mid + [s[i]]);
  }

  /** A pass extends the sorted prefix by one. */
  lemma InsertSorted(s: seq<int>, i: int)
    requires 1 <= i < |s| && Sorted(s[..i])
    ensures Sorted(Insert(s, i).vals[..i + 1])
  {
    InsertStops(s, i);
    InsertShape(s, i);
    var p := Insert(s, i).pos;
    var t := Insert(s, i).vals;
    var key := s[i];
    assert forall k :: 0 <= k < p ==> s[k] <= key by {
      forall k | 0 <= k < p ensures s[k] <= key {
        assert s[..i][k] <= s[..i][p - 1];
      }
    }
    forall x, y | 0 <= x < y < i + 1 ensures t[x] <= t[y] {
      if y < p {
        assert s[..i][x] <= s[..i][y];
      } else if y == p {
      } else if x == p {
      } else if x < p {
        assert s[..i][x] <= s[..i][y - 1];
      } else {
        assert s[..i][x - 1] <= s[..i][y - 1];
      }
    }
  }

  /** A pass shifts exactly the elements of the sorted prefix that are above the key. */
  lemma InsertCount(s: seq<int>, i: int)
    requires 1 <= i < |s| && Sorted(s[..i])
    ensures |Insert(s, i).steps| == 2 + CountAbove(s[..i], s[i])
  {
    InsertStops(s, i);
    CountAtStop(s, i, Insert(s, i).pos);
  }

  /** In a sorted prefix `s[..i]`, the elements above `s[i]` are exactly those
      from the stopping position `p` on. */
  lemma CountAtStop(s: seq<int>, i: int, p: int)
    requires 0 <= p <= i < |s| && Sorted(s[..i])
    requires p == 0 || s[p - 1] <= s[i]
    requires forall k :: p <= k < i ==> s[k] > s[i]
    ensures CountAbove(s[..i], s[i]) == i - p
  {
    var key := s[i];
    var below, above := s[..p], s[p..i];
    assert s[..i] == below + above;
    CountAboveAppend(below, above, key);
    assert CountAbove(below, key) == 0 by {
      forall k | 0 <= k < |below| ensures below[k] <= key {
        assert s[..i][k] <= s[..i][p - 1];
      }
      NoneAbove(below, key);
    }
    assert CountAbove(above, key) == |above| by {
      forall k | 0 <= k < |above| ensures above[k] > key {
        assert above[k] == s[p + k];
      }
      AllAbove(above, key);
    }
  }

  /** Every step of a shift highlights a pair inside the array. */
  lemma {:induction false} ShiftLogged(s: seq<int>, key: int, j: int)
    requires -1 <= j < |s| - 1
    ensures Logged(Shift(s, key, j).steps, |s|, 0, |s|)
    decreases j + 1
  {
    if j >= 0 && s[j] > key {
      var t := s[j + 1 := s[j]];
      ShiftLogged(t, key, j - 1);
      LoggedSnoc([], NewStep(t, [j, j + 1]), |s|, 0, |s|);
      LoggedAppend([NewStep(t, [j, j + 1])], Shift(t, key, j - 1).steps, |s|, 0, |s|);
    }
  }

  lemma InsertLogged(s: seq<int>, i: int)
    requires 1 <= i < |s|
    ensures Logged(Insert(s, i).steps, |s|, 0, |s|)
  {
    var sh := Shift(s, s[i], i - 1);
    var t := sh.vals[sh.j + 1 := s[i]];
    var first, last := NewStep(s, [i, i - 1]), NewStep(t, [sh.j + 1]);
    assert Insert(s, i).steps == [first] + sh.steps + [last];
    assert Logged([first] + sh.steps + [last], |s|, 0, |s|) by {
      ShiftLogged(s, s[i], i - 1);
      assert Fits(first, |s|, 0, |s|) && Fits(last, |s|, 0, |s|);
      BracketLogged(first, sh.steps, last, |s|);
    }
  }

  lemma {:induction false} InsertionSorts(s: seq<int>, i: nat)
    requires 1 <= i <= |s| && Sorted(s[..i])
    ensures Sorted(InsertionVals(s, i))
    decreases |s| - i
  {
    if i < |s| {
      InsertSorted(s, i);
      InsertionSorts(Insert(s, i).vals, i + 1);
    } else {
      assert s[..i] == s;
    }
  }

  lemma {:induction false} InsertionPerm(s: seq<int>, i: nat)
    requires 1 <= i
    ensures multiset(InsertionVals(s, i)) == multiset(s)
    decreases |s| - i
  {
    if i < |s| {
      InsertPerm(s, i);
      InsertionPerm(Insert(s, i).vals, i + 1);
    }
  }

  lemma {:induction false} InsertionLogged(s: seq<int>, i: nat)
    requires 1 <= i
    ensures Logged(InsertionSteps(s, i), |s|, 0, |s|)
    decreases |s| - i
  {
    if i < |s| {
      InsertLogged(s, i);
      InsertionLogged(Insert(s, i).vals, i + 1);
      LoggedAppend(Insert(s, i).steps, InsertionSteps(Insert(s, i).vals, i + 1), |s|, 0, |s|);
    }
  }

  /** The inversions contributed by the elements from `i` on: each counts the
      elements before it that are above it. */
  function TailInversions(s: seq<int>, i: nat): nat
    decreases |s| - i
  {
    if i >= |s| then 0 else CountAbove(s[..i], s[i]) + TailInversions(s, i + 1)
  }

  lemma {:induction false} TailInversionsSplit(s: seq<int>, i: nat)
    requires i <= |s|
    ensures Inversions(s) == Inversions(s[..i]) + TailInversions(s, i)
    decreases |s| - i
  {
    if i < |s| {
      TailInversionsSplit(s, i + 1);
      assert s[..i + 1][..i] == s[..i];
    } else {
      assert s[..i] == s;
    }
  }

  /** Rearranging a prefix does not change what the elements after it contribute. */
  lemma {:induction false} TailInversionsPrefixPerm(s: seq<int>, t: seq<int>, i: nat)
    requires |s| == |t| && i <= |s| && multiset(s[..i]) == multiset(t[..i]) && s[i..] == t[i..]
    ensures TailInversions(s, i) == TailInversions(t, i)
    decreases |s| - i
  {
    if i < |s| {
      assert s[i] == s[i..][0] == t[i..][0] == t[i];
      CountAbovePerm(s[..i], t[..i], s[i]);
      assert s[..i + 1] == s[..i] + [s[i]] && t[..i + 1] == t[..i] + [t[i]];
      assert s[i + 1..] == s[i..][1..] && t[i + 1..] == t[i..][1..];
      TailInversionsPrefixPerm(s, t, i + 1);
    }
  }

  /** Passes `i ..` record two steps each plus one per shift, and the shifts
      number the inversions the elements from `i` on contribute. */
  lemma {:induction false} InsertionCount(s: seq<int>, i: nat)
    requires 1 <= i <= |s| && Sorted(s[..i])
    ensures |InsertionSteps(s, i)| == 2 * (|s| - i) + TailInversions(s, i)
    decreases |s| - i
  {
    if i < |s| {
      var t := Insert(s, i).vals;
      InsertCount(s, i);
      InsertSorted(s, i);
      InsertPerm(s, i);
      InsertionCount(t, i + 1);
      TailInversionsPrefixPerm(s, t, i + 1);
    }
  }

  /** The JavaScript insertion sort leaves a sorted rearrangement of its input;
      its run is bracketed by the input and the result, highlights only indices
      of the array, and has `2 + 2(n - 1) + Inversions(input)` steps (2 when empty). */
  lemma InsertionCorrect(s: seq<int>)
    ensures Sorted(InsertionVals(s, 1)) && multiset(InsertionVals(s, 1)) == multiset(s)
    ensures Bracketed(InsertionRun(s), s, InsertionVals(s, 1)) && Logged(InsertionRun(s), |s|, 0, |s|)
    ensures |InsertionRun(s)| == if |s| == 0 then 2 else 2 + 2 * (|s| - 1) + Inversions(s)
  {
    InsertionPerm(s, 1);
    InsertionLogged(s, 1);
    BracketLogged(NewStep(s, []), InsertionSteps(s, 1), NewStep(InsertionVals(s, 1), []), |s|);
    if |s| > 0 {
      InsertionSorts(s, 1);
      InsertionCount(s, 1);
      TailInversionsSplit(s, 1);
      assert Inversions(s[..1]) == 0 by { SortedHasNoInversions(s[..1]); }
    }
  }

  // ------------------------------------------------------------ Java driver, as written

  /** `while (j >= 0 && arr[j] > key) { arr[j + 1] = arr[j]; record (j, j + 1);
      j--; record (j, j + 1); j--; }`: two steps back per shift. */
  function JavaShift(s: seq<int>, key: int, j: int): (r: Shifted)
    requires -2 <= j < |s| - 1
    ensures |r.vals| == |s| && -2 <= r.j <= j
    decreases j + 2
  {
    if j >= 0 && s[j] > key then
      var t := s[j + 1 := s[j]];
      var r := JavaShift(t, key, j - 2);
      Shifted(r.vals, r.j, [NewStep(t, [j, j + 1]), NewStep(t, [j - 1, j])] + r.steps)
    else
      Shifted(s, j, [])
  }

  /** How the Java driver ends: normally, or with `ArrayIndexOutOfBoundsException`
      at `arr[j + 1] = key` when `j` has reached -2. Either way, the array as it
      stands and the steps recorded so far. */
  datatype JavaOutcome = Finished(vals: seq<int>, steps: seq<Step>) | OutOfBounds(vals: seq<int>, steps: seq<Step>)

  /** Steps recorded before an outcome. */
  function Prepend(pre: seq<Step>, o: JavaOutcome): (r: JavaOutcome)
    ensures r.vals == o.vals && r.steps == pre + o.steps && (r.Finished? <==> o.Finished?)
  {
    match o
    case Finished(v, st) => Finished(v, pre + st)
    case OutOfBounds(v, st) => OutOfBounds(v, pre + st)
  }

  lemma PrependPrepend(a: seq<Step>, b: seq<Step>, o: JavaOutcome)
    ensures Prepend(a, Prepend(b, o)) == Prepend(a + b, o)
  {
    assert a + (b + o.steps) == a + b + o.steps;
  }

  /** Pass `i` of the Java driver. */
  function JavaInsert(s: seq<int>, i: int): (r: JavaOutcome)
    requires 1 <= i < |s|
    ensures |r.vals| == |s|
  {
    var first := NewStep(s, [i, i - 1]);
    var sh := JavaShift(s, s[i], i - 1);
    if sh.j + 1 < 0 then OutOfBounds(sh.vals, [first] + sh.steps)
    else
      var t := sh.vals[sh.j + 1 := s[i]];
      Finished(t, [first] + sh.steps + [NewStep(t, [sh.j + 1])])
  }

  /** The Java passes `i ..`, stopping at the first exception. */
  function JavaInsertionFrom(s: seq<int>, i: nat): (r: JavaOutcome)
    requires 1 <= i
    ensures |r.vals| == |s|
    decreases |s| - i
  {
    if i >= |s| then Finished(s, [])
    else
      match JavaInsert(s, i)
      case OutOfBounds(v, st) => OutOfBounds(v, st)
      case Finished(t, st) => Prepend(st, JavaInsertionFrom(t, i + 1))
  }

  /** The whole Java run; the final copy is recorded only when no exception was thrown. */
  function JavaInsertion(s: seq<int>): (r: JavaOutcome)
    ensures |r.vals| == |s|
  {
    match JavaInsertionFrom(s, 1)
    case Finished(v, st) => Finished(v, [NewStep(s, [])] + st + [NewStep(v, [])])
    case OutOfBounds(v, st) => OutOfBounds(v, [NewStep(s, [])] + st)
  }

  /** The Java insertion sort as written; `thrown` reports the exception. */
  method JavaInsertionSort(a: array<int>) returns (steps: seq<Step>, thrown: bool)
    modifies a
    ensures JavaInsertion(old(a[..])) == if thrown then OutOfBounds(a[..], steps) else Finished(a[..], steps)
  {
    steps := [NewStep(a[..], [])];
    var passes;
    passes, thrown := JavaInsertionPasses(a);
    steps := steps + passes;
    if !thrown {
      steps := steps + [NewStep(a[..], [])];
    }
  }

  method JavaInsertionPasses(a: array<int>) returns (steps: seq<Step>, thrown: bool)
    modifies a
    ensures JavaInsertionFrom(old(a[..]), 1) == if thrown then OutOfBounds(a[..], steps) else Finished(a[..], steps)
  {
    steps := [];
    thrown := false;
    var i := 1;
    while i < a.Length
      invariant 1 <= i
      invariant Prepend(steps, JavaInsertionFrom(a[..], i)) == JavaInsertionFrom(old(a[..]), 1)
    {
      ghost var before := a[..];
      var pass, failed := JavaInsertPass(a, i);
      if failed {
        assert JavaInsertionFrom(before, i) == OutOfBounds(a[..], pass);
        steps := steps + pass;
        thrown := true;
        return;
      }
      assert JavaInsertionFrom(before, i) == Prepend(pass, JavaInsertionFrom(a[..], i + 1));
      PrependPrepend(steps, pass, JavaInsertionFrom(a[..], i + 1));
      steps := steps + pass;
      i := i + 1;
    }
  }

  method JavaInsertPass(a: array<int>, i: int) returns (pass: seq<Step>, thrown: bool)
    requires 1 <= i < a.Length
    modifies a
    ensures JavaInsert(old(a[..]), i) == if thrown then OutOfBounds(a[..], pass) else Finished(a[..], pass)
  {
    var key := a[i];
    var j := i - 1;
    pass := [NewStep(a[..], [i, j])];
    ghost var first := pass;
    ghost var goal := JavaShift(a[..], key, j);
    while j >= 0 && a[j] > key
      invariant -2 <= j <= i - 1
      invariant JavaShift(a[..], key, j).vals == goal.vals && JavaShift(a[..], key, j).j == goal.j
      invariant pass + JavaShift(a[..], key, j).steps == first + goal.steps
    {
      ghost var done := pass;
      a[j + 1] := a[j];
      ghost var shifted := [NewStep(a[..], [j, j + 1]), NewStep(a[..], [j - 1, j])];
      AppendAssoc(done, shifted, JavaShift(a[..], key, j - 2).steps);
      pass := pass + [NewStep(a[..], [j, j + 1])];
      j := j - 1;
      pass := pass + [NewStep(a[..], [j, j + 1])];
      j := j - 1;
      assert pass == done + shifted;
    }
    if j + 1 < 0 {
      thrown := true;
      return;
    }
    thrown := false;
    a[j + 1] := key;
    pass := pass + [NewStep(a[..], [j + 1])];
  }

  /** Any input whose first two elements are out of order makes the Java driver
      shift at `j = 0`, step `j` down to -2 and write to index -1. */
  lemma JavaThrowsOnDescendingStart(s: seq<int>)
    requires |s| >= 2 && s[0] > s[1]
    ensures JavaInsertion(s).OutOfBounds?
  {
    var t := s[1 := s[0]];
    assert JavaShift(s, s[1], 0) == Shifted(t, -2, [NewStep(t, [0, 1]), NewStep(t, [-1, 0])]);
  }

  /** `[2, 1]`: the run records the active index -1 and then throws, with the 1 already lost. */
  lemma JavaTwoOne()
    ensures JavaInsertion([2, 1])
         == OutOfBounds([2, 2], [Step([2, 1], [], []), Step([2, 1], [1, 0], []), Step([2, 2], [0, 1], []), Step([2, 2], [-1, 0], [])])
  {
    assert JavaShift([2, 1], 1, 0) == Shifted([2, 2], -2, [Step([2, 2], [0, 1], []), Step([2, 2], [-1, 0], [])]);
  }

  /** `[1, 3, 2]`: no exception, but the 1 is overwritten and the result is
      `[2, 3, 3]`, which is not a rearrangement of the input. */
  lemma JavaLosesValue()
    ensures JavaInsertion([1, 3, 2]).Finished?
    ensures JavaInsertion([1, 3, 2]).vals == [2, 3, 3]
    ensures multiset(JavaInsertion([1, 3, 2]).vals) != multiset([1, 3, 2])
  {
    var s, u := [1, 3, 2], [2, 3, 3];
    assert JavaShift(s, 3, 0) == Shifted(s, 0, []);
    assert s[1 := 3] == s;
    assert JavaInsert(s, 1).Finished? && JavaInsert(s, 1).vals == s;
    assert s[2 := 3] == [1, 3, 3];
    assert JavaShift([1, 3, 3], 2, -1) == Shifted([1, 3, 3], -1, []);
    assert JavaShift(s, 2, 1).vals == [1, 3, 3] && JavaShift(s, 2, 1).j == -1;
    assert [1, 3, 3][0 := 2] == u;
    assert JavaInsert(s, 2).Finished? && JavaInsert(s, 2).vals == u;
    assert JavaInsertionFrom(u, 3) == Finished(u, []);
    assert JavaInsertionFrom(s, 2).Finished? && JavaInsertionFrom(s, 2).vals == u;
    assert JavaInsertionFrom(s, 1).Finished? && JavaInsertionFrom(s, 1).vals == u;
    assert 1 in multiset(s);
  }

  /** On an input that is already sorted nothing is shifted, and the Java
      driver records exactly the run of the JavaScript one. */
  lemma {:induction false} JavaAgreesOnSorted(s: seq<int>)
    requires Sorted(s)
    ensures JavaInsertion(s) == Finished(s, InsertionRun(s))
  {
    JavaAgreesFrom(s, 1);
  }

  lemma {:induction false} JavaAgreesFrom(s: seq<int>, i: nat)
    requires Sorted(s) && 1 <= i
    ensures InsertionVals(s, i) == s
    ensures JavaInsertionFrom(s, i) == Finished(s, InsertionSteps(s, i))
    decreases |s| - i
  {
    if i < |s| {
      assert s[i - 1] <= s[i];
      assert s[i := s[i]] == s;
      assert Insert(s, i) == Inserted(s, i, [NewStep(s, [i, i - 1]), NewStep(s, [i])]);
      assert JavaInsert(s, i) == Finished(s, [NewStep(s, [i, i - 1]), NewStep(s, [i])]);
      JavaAgreesFrom(s, i + 1);
    }
  }
}
