/** "Stalin sort" (`stalinSort` in Java and in JavaScript): a single pass that
    never changes the array, keeps the running maximum and marks every element
    below it as eliminated. Neither driver sorts; the steps only show which
    elements would go. The two drivers mark the same elements and differ only
    in the steps they record. */
module StalinSorting {
  import opened Snapshots
  import opened Ordering

  /** The largest of `s[0], .., s[i - 1]` (`max_val` once index `i - 1` is done). */
  function RunningMax(s: seq<int>, i: int): int
    requires 1 <= i <= |s|
  {
    if i == 1 then s[0]
    else if s[i - 1] < RunningMax(s, i - 1) then RunningMax(s, i - 1)
    else s[i - 1]
  }

  /** The index `max_idx` holds once index `i - 1` is done: the last element
      that was not eliminated. */
  function LastKept(s: seq<int>, i: int): (m: int)
    requires 1 <= i <= |s|
    ensures 0 <= m < i
  {
    if i == 1 then 0
    else if s[i - 1] < RunningMax(s, i - 1) then LastKept(s, i - 1)
    else i - 1
  }

  /** The eliminated indices below `i`, in the order the pass marks them. */
  function Purged(s: seq<int>, i: int): seq<int>
    requires 1 <= i <= |s|
  {
    if i == 1 then []
    else Purged(s, i - 1) + (if s[i - 1] < RunningMax(s, i - 1) then [i - 1] else [])
  }

  /** The values that survive among `s[0], .., s[i - 1]`, in order. */
  function Survivors(s: seq<int>, i: int): (r: seq<int>)
    requires 1 <= i <= |s|
    ensures 1 <= |r| <= i
  {
    if i == 1 then [s[0]]
    else Survivors(s, i - 1) + (if s[i - 1] < RunningMax(s, i - 1) then [] else [s[i - 1]])
  }

  // ---------------------------------------------------------------- the drivers

  /** The steps the Java loop records for indices `1 .. i - 1`: the current
      index and the running maximum's index highlighted, with the indices
      eliminated so far. */
  function JavaRounds(s: seq<int>, i: int): seq<Step>
    requires 1 <= i <= |s|
  {
    if i == 1 then []
    else JavaRounds(s, i - 1) + [Step(s, [i - 1, LastKept(s, i - 1)], Purged(s, i - 1))]
  }

  /** Every step the Java `stalinSort` records for the array `s`. */
  function JavaStalinRun(s: seq<int>): seq<Step> {
    if s == [] then [NewStep(s, [])]
    else [NewStep(s, [])] + JavaRounds(s, |s|) + [Step(s, [], Purged(s, |s|))]
  }

  /** Java `stalinSort(arr)`. */
  method JavaStalinSort(a: array<int>) returns (steps: seq<Step>)
    ensures steps == JavaStalinRun(a[..])
  {
    if a.Length == 0 {
      steps := [NewStep(a[..], [])];
      return;
    }
    steps := [NewStep(a[..], [])];
    var eliminated: seq<int> := [];
    var maxVal, maxIdx := a[0], 0;
    var i := 1;
    while i < a.Length
      invariant 1 <= i <= a.Length
      invariant maxVal == RunningMax(a[..], i) && maxIdx == LastKept(a[..], i)
      invariant eliminated == Purged(a[..], i)
      invariant steps == [NewStep(a[..], [])] + JavaRounds(a[..], i)
    {
      steps := steps + [Step(a[..], [i, maxIdx], eliminated)];
      if a[i] < maxVal {
        eliminated := eliminated + [i];
      } else {
        maxVal, maxIdx := a[i], i;
      }
      i := i + 1;
    }
    steps := steps + [Step(a[..], [], eliminated)];
  }

  /** The steps the JavaScript loop records for indices `1 .. i - 1`: as in
      Java, plus a second step right after each elimination that already
      lists the new index. */
  function JsRounds(s: seq<int>, i: int): seq<Step>
    requires 1 <= i <= |s|
  {
    if i == 1 then []
    else
      var compare := Step(s, [i - 1, LastKept(s, i - 1)], Purged(s, i - 1));
      if s[i - 1] < RunningMax(s, i - 1) then
        JsRounds(s, i - 1) + [compare, Step(s, [i - 1, LastKept(s, i - 1)], Purged(s, i))]
      else JsRounds(s, i - 1) + [compare]
  }

  /** Every step the JavaScript `stalinSort` records for the array `s`. */
  function JsStalinRun(s: seq<int>): seq<Step> {
    if s == [] then [NewStep(s, [])]
    else [NewStep(s, [])] + JsRounds(s, |s|) + [Step(s, [], Purged(s, |s|))]
  }

  /** JavaScript `stalinSort(arr)`. */
  method JsStalinSort(a: array<int>) returns (steps: seq<Step>)
    ensures steps == JsStalinRun(a[..])
  {
    if a.Length == 0 {
      steps := [NewStep(a[..], [])];
      return;
    }
    steps := [NewStep(a[..], [])];
    var maxVal, maxIdx := a[0], 0;
    var eliminated: seq<int> := [];
    var i := 1;
    while i < a.Length
      invariant 1 <= i <= a.Length
      invariant maxVal == RunningMax(a[..], i) && maxIdx == LastKept(a[..], i)
      invariant eliminated == Purged(a[..], i)
      invariant steps == [NewStep(a[..], [])] + JsRounds(a[..], i)
    {
      steps := steps + [Step(a[..], [i, maxIdx], eliminated)];
      if a[i] < maxVal {
        eliminated := eliminated + [i];
        steps := steps + [Step(a[..], [i, maxIdx], eliminated)];
      } else {
        maxVal, maxIdx := a[i], i;
      }
      i := i + 1;
    }
    steps := steps + [Step(a[..], [], eliminated)];
  }

  // ---------------------------------------------------------------- properties

  /** `max_val` is the maximum of the prefix: no element of `s[0..i)` exceeds
      it, and it sits at index `max_idx`. */
  lemma {:induction false} RunningMaxIsMax(s: seq<int>, i: int)
    requires 1 <= i <= |s|
    ensures forall k :: 0 <= k < i ==> s[k] <= RunningMax(s, i)
    ensures s[LastKept(s, i)] == RunningMax(s, i)
  {
    if i > 1 {
      RunningMaxIsMax(s, i - 1);
    }
  }

  /** An index is eliminated exactly when it is not the first and its value is
      below the maximum of the values before it. */
  lemma {:induction false} PurgedIff(s: seq<int>, i: int, x: int)
    requires 1 <= i <= |s|
    ensures x in Purged(s, i) <==> 1 <= x < i && s[x] < RunningMax(s, x)
  {
    if i > 1 {
      PurgedIff(s, i - 1, x);
    }
  }

  /** The eliminated indices are listed in strictly increasing order, each
      inside the array and none of them the first index. */
  lemma {:induction false} PurgedIncreasing(s: seq<int>, i: int)
    requires 1 <= i <= |s|
    ensures forall p, q :: 0 <= p < q < |Purged(s, i)| ==> Purged(s, i)[p] < Purged(s, i)[q]
    ensures forall p :: 0 <= p < |Purged(s, i)| ==> 1 <= Purged(s, i)[p] < i
  {
    if i > 1 {
      PurgedIncreasing(s, i - 1);
    }
  }

  /** The values read in order, without the eliminated ones, never descend,
      and the last of them is the running maximum. */
  lemma {:induction false} SurvivorsSorted(s: seq<int>, i: int)
    requires 1 <= i <= |s|
    ensures Sorted(Survivors(s, i)) && Survivors(s, i)[|Survivors(s, i)| - 1] == RunningMax(s, i)
  {
    if i > 1 {
      SurvivorsSorted(s, i - 1);
      var prev := Survivors(s, i - 1);
      if !(s[i - 1] < RunningMax(s, i - 1)) {
        var t := prev + [s[i - 1]];
        forall p, q | 0 <= p < q < |t| ensures t[p] <= t[q] {
          if q == |prev| {
            assert prev[p] <= prev[|prev| - 1];
          }
        }
      }
    }
  }

  /** Every value is either eliminated or survives: the survivors number the
      prefix length less the eliminated ones. */
  lemma {:induction false} SurvivorsCount(s: seq<int>, i: int)
    requires 1 <= i <= |s|
    ensures |Survivors(s, i)| + |Purged(s, i)| == i
  {
    if i > 1 {
      SurvivorsCount(s, i - 1);
    }
  }

  /** The values `s[0], .., s[i - 1]` in order, leaving out those whose
      index is in `drop`. */
  function Without(s: seq<int>, i: int, drop: seq<int>): (r: seq<int>)
    requires 0 <= i <= |s|
    ensures |r| <= i
  {
    if i == 0 then [] else Without(s, i - 1, drop) + (if i - 1 in drop then [] else [s[i - 1]])
  }

  /** The survivors are exactly the values whose index the whole pass does
      not eliminate, in their original order. */
  lemma {:induction false} SurvivorsUnpurged(s: seq<int>, i: int, n: int)
    requires 1 <= i <= n <= |s|
    ensures Survivors(s, i) == Without(s, i, Purged(s, n))
  {
    PurgedIff(s, n, i - 1);
    if i > 1 {
      SurvivorsUnpurged(s, i - 1, n);
    } else {
      assert Without(s, 0, Purged(s, n)) == [];
    }
  }

  lemma {:induction false} JavaRoundsCount(s: seq<int>, i: int)
    requires 1 <= i <= |s|
    ensures |JavaRounds(s, i)| == i - 1
  {
    if i > 1 {
      JavaRoundsCount(s, i - 1);
    }
  }

  lemma {:induction false} JsRoundsCount(s: seq<int>, i: int)
    requires 1 <= i <= |s|
    ensures |JsRounds(s, i)| == i - 1 + |Purged(s, i)|
  {
    if i > 1 {
      JsRoundsCount(s, i - 1);
    }
  }

  /** Every step of a round copies the untouched array, highlights the current
      index and the running maximum's index, both inside the array, and lists
      only eliminated indices. */
  lemma {:induction false} JavaRoundsShape(s: seq<int>, i: int)
    requires 1 <= i <= |s|
    ensures forall k :: 0 <= k < |JavaRounds(s, i)| ==>
      JavaRounds(s, i)[k].vals == s && Within(JavaRounds(s, i)[k].active, 0, |s|)
  {
    if i > 1 {
      JavaRoundsShape(s, i - 1);
    }
  }

  lemma {:induction false} JsRoundsShape(s: seq<int>, i: int)
    requires 1 <= i <= |s|
    ensures forall k :: 0 <= k < |JsRounds(s, i)| ==>
      JsRounds(s, i)[k].vals == s && Within(JsRounds(s, i)[k].active, 0, |s|)
  {
    if i > 1 {
      JsRoundsShape(s, i - 1);
    }
  }

  /** What the Java driver promises: every step shows the array unchanged,
      the first highlights and eliminates nothing, the last lists exactly the
      eliminated indices, and there are `n + 1` steps (one for an empty
      array). */
  lemma JavaStalinCorrect(s: seq<int>)
    ensures forall k :: 0 <= k < |JavaStalinRun(s)| ==>
      JavaStalinRun(s)[k].vals == s && Within(JavaStalinRun(s)[k].active, 0, |s|)
    ensures JavaStalinRun(s)[0] == Step(s, [], [])
    ensures |JavaStalinRun(s)| == if s == [] then 1 else |s| + 1
    ensures s != [] ==> JavaStalinRun(s)[|s|] == Step(s, [], Purged(s, |s|))
  {
    if s != [] {
      JavaRoundsCount(s, |s|);
      JavaRoundsShape(s, |s|);
    }
  }

  /** What the JavaScript driver promises: the same, except that it records
      `n + 1` steps plus one per eliminated index; its final step lists the
      same eliminated indices as the Java driver's. */
  lemma JsStalinCorrect(s: seq<int>)
    ensures forall k :: 0 <= k < |JsStalinRun(s)| ==>
      JsStalinRun(s)[k].vals == s && Within(JsStalinRun(s)[k].active, 0, |s|)
    ensures JsStalinRun(s)[0] == Step(s, [], [])
    ensures |JsStalinRun(s)| == if s == [] then 1 else |s| + 1 + |Purged(s, |s|)|
    ensures JsStalinRun(s)[|JsStalinRun(s)| - 1] == JavaStalinRun(s)[|JavaStalinRun(s)| - 1]
  {
    if s != [] {
      JsRoundsCount(s, |s|);
      JsRoundsShape(s, |s|);
      JavaRoundsCount(s, |s|);
    }
  }
}
