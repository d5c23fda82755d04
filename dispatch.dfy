/** The two entry points that pick a driver by its sort-type name: the Java
    request handler `sort` (validation, dispatch, the flattened result that
    is saved) and the JavaScript start handler (the eight-digit check and the
    dispatch). Rendering, the repository and the animation are not modelled. */
module Dispatch {
  import opened Wrappers
  import opened Snapshots
  import opened Ordering
  import opened Normalizer
  import ExchangeSorts
  import Insertion
  import MergeSorting
  import QuickSorting
  import BogoSorting
  import StalinSorting
  import Wave

  /** The eight drivers a request can name. */
  datatype Algorithm = Bubble | Selection | InsertionSort | Merge | Quick | Bogo | Stalin | WaveMotion

  /** The sort-type name of each driver (`SORT_TYPE_...`, and the `case`
      labels of the start handler). */
  function SortTypeName(alg: Algorithm): string {
    match alg
    case Bubble => "bubble"
    case Selection => "selection"
    case InsertionSort => "insertion"
    case Merge => "merge"
    case Quick => "quick"
    case Bogo => "bogo"
    case Stalin => "stalin"
    case WaveMotion => "wave"
  }

  /** The driver a sort-type name selects; any other name selects none (the
      empty `default` arm, the unmatched `switch`). */
  function AlgorithmNamed(sortType: string): Option<Algorithm> {
    if sortType == "bubble" then Some(Bubble)
    else if sortType == "selection" then Some(Selection)
    else if sortType == "insertion" then Some(InsertionSort)
    else if sortType == "merge" then Some(Merge)
    else if sortType == "quick" then Some(Quick)
    else if sortType == "bogo" then Some(Bogo)
    else if sortType == "stalin" then Some(Stalin)
    else if sortType == "wave" then Some(WaveMotion)
    else None
  }

  /** Each driver is selected by its own name and by no other. */
  lemma NamesSelect(alg: Algorithm, sortType: string)
    ensures AlgorithmNamed(SortTypeName(alg)) == Some(alg)
    ensures AlgorithmNamed(sortType) == Some(alg) <==> sortType == SortTypeName(alg)
  {
  }

  /** The drivers that end with the array sorted whenever they finish. */
  predicate Sorts(alg: Algorithm) {
    alg == Bubble || alg == Selection || alg == Merge || alg == Quick || alg == Bogo
  }

  /** The drivers that leave the array as it was. */
  predicate KeepsArray(alg: Algorithm) {
    alg == Stalin || alg == WaveMotion
  }

  // ---------------------------------------------------------------- Java

  const NoNumbersMessage := "有効な数字が入力されていません。"

  /** What the Java handler ends with: the error message when no digit was
      given; the recorded steps with the final array and its flattened text
      (the text saved as the sorted numbers); the exception the Java
      insertion sort throws; or, for bogo sort, a run the draws could not
      finish. */
  datatype Response =
    | Rejected(errorMessage: string)
    | Rendered(steps: seq<Step>, final: seq<int>, sortedNumbers: string)
    | Crashed
    | Unfinished(steps: seq<Step>)

  /** What a driver leaves: the final array, the recorded steps, and whether
      it ran to the end. */
  datatype Outcome = Outcome(vals: seq<int>, steps: seq<Step>, completed: bool)

  /** The Java driver `alg` run on `s`: each case is the run its own file
      defines. */
  function JavaDriverRun(alg: Algorithm, s: seq<int>, draws: seq<nat>): Outcome {
    match alg
    case Bubble => Outcome(ExchangeSorts.BubbleVals(s, 0), ExchangeSorts.BubbleRun(s), true)
    case Selection => Outcome(ExchangeSorts.SelectionVals(s, 0), ExchangeSorts.SelectionRun(s), true)
    case InsertionSort =>
      (match Insertion.JavaInsertion(s)
       case Finished(vals, steps) => Outcome(vals, steps, true)
       case OutOfBounds(vals, steps) => Outcome(vals, steps, false))
    case Merge => Outcome(MergeSorting.MergeSortRun(s, 0, |s| - 1).vals, MergeSorting.MergeSortSteps(s), true)
    case Quick => Outcome(QuickSorting.QuickRun(s, 0, |s| - 1).vals, QuickSorting.QuickSortRun(s), true)
    case Bogo =>
      var r := BogoSorting.ShuffleRun(s, draws);
      Outcome(r.vals, BogoSorting.BogoSteps(s, draws), r.sorted)
    case Stalin => Outcome(s, StalinSorting.JavaStalinRun(s), true)
    case WaveMotion => Outcome(s, Wave.WaveRun(s), true)
  }

  /** Sorting drivers end sorted, every driver but the Java insertion sort
      only rearranges, the drivers that only animate leave the array as it
      was, and only the Java insertion sort and bogo sort can fail to
      finish. */
  lemma JavaDriverFacts(alg: Algorithm, s: seq<int>, draws: seq<nat>)
    ensures var o := JavaDriverRun(alg, s, draws);
      && (!o.completed ==> alg == InsertionSort || alg == Bogo)
      && (o.completed && alg != InsertionSort ==> multiset(o.vals) == multiset(s))
      && (o.completed && Sorts(alg) ==> Sorted(o.vals))
      && (KeepsArray(alg) ==> o.vals == s)
  {
    if alg != InsertionSort && alg != Stalin {
      assert JavaDriverRun(alg, s, draws) == JsDriverRun(alg, s, draws);
      DriverFacts(alg, s, draws);
    }
  }

  /** The facts shared by the drivers both programs run the same way. */
  lemma DriverFacts(alg: Algorithm, s: seq<int>, draws: seq<nat>)
    requires alg != InsertionSort
    ensures var o := JsDriverRun(alg, s, draws);
      && (!o.completed ==> alg == Bogo)
      && multiset(o.vals) == multiset(s)
      && (o.completed && Sorts(alg) ==> Sorted(o.vals))
      && (KeepsArray(alg) ==> o.vals == s)
  {
    match alg
    case Bubble => ExchangeSorts.BubbleCorrect(s);
    case Selection => ExchangeSorts.SelectionCorrect(s);
    case Merge =>
      MergeSorting.MergeRunSorts(s, 0, |s| - 1);
      WholeSortedInPlace(s, MergeSorting.MergeSortRun(s, 0, |s| - 1).vals);
    case Quick =>
      QuickSorting.QuickRunSorts(s, 0, |s| - 1);
      WholeSortedInPlace(s, QuickSorting.QuickRun(s, 0, |s| - 1).vals);
    case Bogo =>
      BogoSorting.ShuffleRunSorted(s, draws);
      BogoSorting.ShuffleRunPerm(s, draws);
    case Stalin =>
    case WaveMotion =>
  }

  /** What `sort` answers for a request. */
  function JavaResponse(sortType: string, numbers: Option<string>, draws: seq<nat>): Response {
    var parsed := ParseNumbers(numbers);
    if |parsed| == 0 then Rejected(NoNumbersMessage)
    else match AlgorithmNamed(sortType)
      case None => Rendered([], parsed, Flatten(parsed))
      case Some(alg) =>
        var o := JavaDriverRun(alg, parsed, draws);
        if o.completed then Rendered(o.steps, o.vals, Flatten(o.vals))
        else if alg == InsertionSort then Crashed
        else Unfinished(o.steps)
  }

  /** `sort(sortType, numbers)`: parse, refuse an empty result before any
      driver runs, run the selected driver on the parsed array (nothing for
      an unknown name), and flatten the final array. */
  method Sort(sortType: string, numbers: Option<string>, draws: seq<nat>) returns (r: Response)
    ensures r == JavaResponse(sortType, numbers, draws)
    ensures ParseNumbers(numbers) == [] <==> r.Rejected?
    ensures r.Rejected? ==> r.errorMessage == NoNumbersMessage
    ensures r.Rendered? ==> r.sortedNumbers == Flatten(r.final) && |r.final| == |ParseNumbers(numbers)|
    ensures ParseNumbers(numbers) != [] && AlgorithmNamed(sortType) == None ==>
      r == Rendered([], ParseNumbers(numbers), Flatten(ParseNumbers(numbers)))
    ensures ParseNumbers(numbers) != [] && AlgorithmNamed(sortType) != Some(InsertionSort) && AlgorithmNamed(sortType) != Some(Bogo) ==> r.Rendered?
    ensures r.Crashed? ==> AlgorithmNamed(sortType) == Some(InsertionSort)
    ensures r.Unfinished? ==> AlgorithmNamed(sortType) == Some(Bogo)
    ensures r.Rendered? && AlgorithmNamed(sortType) != Some(InsertionSort) ==> multiset(r.final) == multiset(ParseNumbers(numbers))
    ensures r.Rendered? && AlgorithmNamed(sortType).Some? && Sorts(AlgorithmNamed(sortType).value) ==> Sorted(r.final)
    ensures r.Rendered? && AlgorithmNamed(sortType).Some? && KeepsArray(AlgorithmNamed(sortType).value) ==> r.final == ParseNumbers(numbers)
  {
    var parsed := ParseNumbers(numbers);
    if |parsed| == 0 {
      return Rejected(NoNumbersMessage);
    }
    var selected := AlgorithmNamed(sortType);
    if selected == None {
      return Rendered([], parsed, Flatten(parsed));
    }
    var alg := selected.value;
    var a := new int[|parsed|](i requires 0 <= i < |parsed| => parsed[i]);
    assert a[..] == parsed;
    var steps, completed := RunJavaDriver(alg, a, draws);
    if !completed {
      if alg == InsertionSort {
        return Crashed;
      }
      return Unfinished(steps);
    }
    r := Rendered(steps, a[..], Flatten(a[..]));
  }

  /** The `switch` of `sort` for a known name; `completed` is false when the
      Java insertion sort throws or the bogo draws give out. */
  method RunJavaDriver(alg: Algorithm, a: array<int>, draws: seq<nat>) returns (steps: seq<Step>, completed: bool)
    modifies a
    ensures JavaDriverRun(alg, old(a[..]), draws) == Outcome(a[..], steps, completed)
    ensures !completed ==> alg == InsertionSort || alg == Bogo
    ensures completed && alg != InsertionSort ==> multiset(a[..]) == multiset(old(a[..]))
    ensures completed && Sorts(alg) ==> Sorted(a[..])
    ensures KeepsArray(alg) ==> a[..] == old(a[..])
  {
    completed := true;
    match alg {
    case Bubble =>
      steps := ExchangeSorts.BubbleSort(a);
    case Selection =>
      steps := ExchangeSorts.SelectionSort(a);
    case InsertionSort =>
      var thrown;
      steps, thrown := Insertion.JavaInsertionSort(a);
      completed := !thrown;
    case Merge =>
      steps := MergeSorting.MergeSort(a);
    case Quick =>
      steps := QuickSorting.QuickSort(a);
    case Bogo =>
      steps, completed := BogoSorting.BogoSort(a, draws);
    case Stalin =>
      steps := StalinSorting.JavaStalinSort(a);
    case WaveMotion =>
      steps := Wave.WaveAnimation(a);
    }
    JavaDriverFacts(alg, old(a[..]), draws);
  }

  // ---------------------------------------------------------------- JavaScript

  const EightDigitsMessage := "8桁の数字を入力してください。"

  /** What the start handler ends with: the alert for text that is not
      exactly eight digits; the recorded steps with the final array that the
      animation plays; or, for bogo sort, a run the draws could not finish. */
  datatype Started =
    | Alerted(message: string)
    | Played(steps: seq<Step>, final: seq<int>)
    | DrawsExhausted(steps: seq<Step>)

  /** The JavaScript driver `alg` run on `s`: each case is the run its own
      file defines. */
  function JsDriverRun(alg: Algorithm, s: seq<int>, draws: seq<nat>): Outcome {
    match alg
    case Bubble => Outcome(ExchangeSorts.BubbleVals(s, 0), ExchangeSorts.BubbleRun(s), true)
    case Selection => Outcome(ExchangeSorts.SelectionVals(s, 0), ExchangeSorts.SelectionRun(s), true)
    case InsertionSort => Outcome(Insertion.InsertionVals(s, 1), Insertion.InsertionRun(s), true)
    case Merge => Outcome(MergeSorting.MergeSortRun(s, 0, |s| - 1).vals, MergeSorting.MergeSortSteps(s), true)
    case Quick => Outcome(QuickSorting.QuickRun(s, 0, |s| - 1).vals, QuickSorting.QuickSortRun(s), true)
    case Bogo =>
      var r := BogoSorting.ShuffleRun(s, draws);
      Outcome(r.vals, BogoSorting.BogoSteps(s, draws), r.sorted)
    case Stalin => Outcome(s, StalinSorting.JsStalinRun(s), true)
    case WaveMotion => Outcome(s, Wave.WaveRun(s), true)
  }

  /** Every JavaScript driver only rearranges and the sorting ones, the
      insertion sort included, end sorted; the drivers that only animate
      leave the array as it was, and only bogo sort can fail to finish. */
  lemma JsDriverFacts(alg: Algorithm, s: seq<int>, draws: seq<nat>)
    ensures var o := JsDriverRun(alg, s, draws);
      && (!o.completed ==> alg == Bogo)
      && multiset(o.vals) == multiset(s)
      && (o.completed && (Sorts(alg) || alg == InsertionSort) ==> Sorted(o.vals))
      && (KeepsArray(alg) ==> o.vals == s)
  {
    if alg == InsertionSort {
      Insertion.InsertionCorrect(s);
    } else {
      DriverFacts(alg, s, draws);
    }
  }

  /** What the start handler ends with for a request. */
  function JsStarted(sortType: string, numbersStr: string, draws: seq<nat>): Started {
    if !IsEightDigits(numbersStr) then Alerted(EightDigitsMessage)
    else
      var digits := SplitDigits(numbersStr);
      match AlgorithmNamed(sortType)
      case None => Played([], digits)
      case Some(alg) =>
        var o := JsDriverRun(alg, digits, draws);
        if o.completed then Played(o.steps, o.vals) else DrawsExhausted(o.steps)
  }

  /** The start handler: check for eight digits, split them into values, run
      the selected driver on a copy (no steps for an unknown name). */
  method StartSort(sortType: string, numbersStr: string, draws: seq<nat>) returns (r: Started)
    ensures r == JsStarted(sortType, numbersStr, draws)
    ensures !IsEightDigits(numbersStr) <==> r.Alerted?
    ensures r.Alerted? ==> r.message == EightDigitsMessage
    ensures r.Played? ==> |r.final| == 8 && multiset(r.final) == multiset(ParseNumbers(Some(numbersStr)))
    ensures IsEightDigits(numbersStr) && AlgorithmNamed(sortType) == None ==> r == Played([], ParseNumbers(Some(numbersStr)))
    ensures IsEightDigits(numbersStr) && AlgorithmNamed(sortType) != Some(Bogo) ==> r.Played?
    ensures r.DrawsExhausted? ==> AlgorithmNamed(sortType) == Some(Bogo)
    ensures r.Played? && AlgorithmNamed(sortType).Some? && (Sorts(AlgorithmNamed(sortType).value) || AlgorithmNamed(sortType) == Some(InsertionSort)) ==> Sorted(r.final)
    ensures r.Played? && AlgorithmNamed(sortType).Some? && KeepsArray(AlgorithmNamed(sortType).value) ==> r.final == ParseNumbers(Some(numbersStr))
  {
    if !IsEightDigits(numbersStr) {
      return Alerted(EightDigitsMessage);
    }
    var digits := SplitDigits(numbersStr);
    EightDigitsAccepted(numbersStr);
    var selected := AlgorithmNamed(sortType);
    if selected == None {
      return Played([], digits);
    }
    var alg := selected.value;
    var a := new int[|digits|](i requires 0 <= i < |digits| => digits[i]);
    assert a[..] == digits;
    var steps, completed := RunJsDriver(alg, a, draws);
    if !completed {
      return DrawsExhausted(steps);
    }
    r := Played(steps, a[..]);
  }

  /** The `switch` of the start handler for a known name; `completed` is
      false when the bogo draws give out. */
  method RunJsDriver(alg: Algorithm, a: array<int>, draws: seq<nat>) returns (steps: seq<Step>, completed: bool)
    modifies a
    ensures JsDriverRun(alg, old(a[..]), draws) == Outcome(a[..], steps, completed)
    ensures !completed ==> alg == Bogo
    ensures multiset(a[..]) == multiset(old(a[..]))
    ensures completed && (Sorts(alg) || alg == InsertionSort) ==> Sorted(a[..])
    ensures KeepsArray(alg) ==> a[..] == old(a[..])
  {
    completed := true;
    match alg {
    case Bubble =>
      steps := ExchangeSorts.BubbleSort(a);
    case Selection =>
      steps := ExchangeSorts.SelectionSort(a);
    case InsertionSort =>
      steps := Insertion.InsertionSort(a);
    case Merge =>
      steps := MergeSorting.MergeSort(a);
    case Quick =>
      steps := QuickSorting.QuickSort(a);
    case Bogo =>
      steps, completed := BogoSorting.BogoSort(a, draws);
    case Stalin =>
      steps := StalinSorting.JsStalinSort(a);
    case WaveMotion =>
      // `shift` and `push` act on the list itself; it ends as it began.
      var rotated;
      rotated, steps := Wave.JsWaveSort(a[..]);
    }
    JsDriverFacts(alg, old(a[..]), draws);
  }
}
