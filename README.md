# Sort-step engine of the sort visualiser

The sort visualiser (`sortprogram`) sorts a short list of digits with one of
eight algorithms and replays the run as an animation. Its core is a
step-recording sort engine. The engine exists twice:

- as the Spring controller `SortController` (Java), which handles the
  `/sort` request;
- as the drivers in `js/main.js`, which run in the browser.

Each driver works in place on an `int` array. At fixed points it records a
*step*: a copy of the array, the highlighted ("active") indices, and the
indices a Stalin sort has eliminated.

This project models that engine in Dafny:

| file | module | what it models |
|---|---|---|
| `wrappers.dfy` | `Wrappers` | `Option`, for the Java reference that may be null |
| `snapshots.dfy` | `Snapshots` | `SortStep` / `newStep` as the value `Step(vals, active, elim)`, and predicates for whole runs: `Logged` (every step has the array's length, highlights only indices in a range and eliminates nothing), `Rearranged` (every recorded array is a rearrangement of the input), `Bracketed` (the run opens and closes with un-highlighted copies) |
| `normalizer.dfy` | `Normalizer` | `parseNumbers`, the flattening of the final array into the saved text, and the JavaScript eight-digit check |
| `ordering.dfy` | `Ordering` | sortedness, inversions, the swap, the stable merge |
| `exchange_sorts.dfy` | `ExchangeSorts` | bubble and selection sort |
| `insertion.dfy` | `Insertion` | the JavaScript insertion sort, and the Java one as written (see Findings) |
| `merge_sort.dfy` | `MergeSorting` | `mergeSort`, `mergeSortHelper`, `merge` |
| `quick_sort.dfy` | `QuickSorting` | `quickSort`, `quickSortHelper`, `partition` (Lomuto, last element as pivot) |
| `bogo.dfy` | `BogoSorting` | `bogoSort`, `isSorted`, `shuffle` |
| `stalin.dfy` | `StalinSorting` | the Java and JavaScript `stalinSort` |
| `wave.dfy` | `Wave` | Java `waveAnimation` and JavaScript `waveSort` |
| `dispatch.dfy` | `Dispatch` | the validation and `switch` of the Java `sort` handler, and the JavaScript start handler |

How the drivers are modelled:

- Every driver is a method over `array<int>` that returns the steps it
  appends. Passing in the caller's fresh list and appending to it comes to
  the same thing.
- A step stores `a[..]`, a value, so a later write to the array never
  reaches a step already recorded. This is the copy that `Arrays.copyOf`
  and `[...arr]` make.
- Where the JavaScript driver is the same code as the Java one, it is
  modelled once: bubble, selection, merge, quick and bogo sort.
- Where the two differ, each has its own member: insertion sort, Stalin
  sort, and the wave rotation (JavaScript uses `shift`/`push` on a growable
  list).
- Every driver is tied to a recursive definition of the array it leaves
  and the steps it records, and both handlers to a definition of their
  response. The methods' loop invariants prove that tie.
  What the source promises (sorted, a permutation, step counts, index
  bounds) is then proved about those definitions.

`Math.random` is replaced by a parameter `draws: seq<nat>`: the round for
index `i` uses `draw % (i + 1)`, which reaches exactly the indices `[0, i]`
that `(int) (Math.random() * (i + 1))` can. A bogo run stops, unfinished,
when the stream cannot feed one more whole shuffle.

Source paths below are relative to the repository root; `SortController.java`
is `webapp/src/main/java/com/example/webapp/controller/SortController.java`.

## Model

| member | source | states |
|---|---|---|
| Normalizer.DigitValues | webapp/src/main/java/com/example/webapp/controller/SortController.java:102 | the digit filter gives at most one value per character, each in 0-9 |
| Normalizer.ParseNumbers | webapp/src/main/java/com/example/webapp/controller/SortController.java:100-103 | null text gives no numbers; otherwise at most one value per character, each in 0-9 |
| Normalizer.DigitValuesAppend | webapp/src/main/java/com/example/webapp/controller/SortController.java:102 | the filter keeps input order: the values of `s + t` are those of `s` followed by those of `t` |
| Normalizer.DigitValuesOfChar | webapp/src/main/java/com/example/webapp/controller/SortController.java:102 | a digit character contributes its value `c - '0'`; any other character contributes nothing |
| Normalizer.ParseNumbersIsDigitFilter | webapp/src/main/java/com/example/webapp/controller/SortController.java:101-102 | for non-null text the blank early return agrees with the filter, and text without digits parses to nothing |
| Normalizer.FlattenParsed | webapp/src/main/java/com/example/webapp/controller/SortController.java:92 | joining the parsed values of digits-only text reproduces the text |
| Normalizer.ParseFlattened | webapp/src/main/java/com/example/webapp/controller/SortController.java:92 | parsing the joined text of single-digit values gives the values back |
| Normalizer.FlattenIsDigits | webapp/src/main/java/com/example/webapp/controller/SortController.java:92 | joining single-digit values gives one digit character per value, in order |
| Normalizer.EightDigitsAccepted | js/main.js:168-172 | accepted text becomes exactly eight values, each its digit's value in 0-9, the same values the Java filter gives |
| Snapshots.AllIndices | webapp/src/main/java/com/example/webapp/controller/SortController.java:220-221 | the highlight of a shuffle step is `0, 1, .., n - 1` |
| Ordering.AdjacentSortedIffSorted | webapp/src/main/java/com/example/webapp/controller/SortController.java:271-274 | the adjacent-pair test of `isSorted` holds exactly when the array is in non-descending order |
| Ordering.Swap | webapp/src/main/java/com/example/webapp/controller/SortController.java:279 | the swap through `temp` exchanges the two elements, leaves every other element, and keeps the multiset |
| Ordering.AdjacentSwapRemovesInversion | webapp/src/main/java/com/example/webapp/controller/SortController.java:116-117 | swapping an out-of-order adjacent pair removes exactly one inversion |
| Ordering.AllPassesCompare | webapp/src/main/java/com/example/webapp/controller/SortController.java:113-114 | the passes of bubble and selection sort compare `n(n-1)/2` pairs in all |
| Ordering.MergePerm | webapp/src/main/java/com/example/webapp/controller/SortController.java:178-185 | the merged run is a rearrangement of its two runs together |
| Ordering.MergeSorted | webapp/src/main/java/com/example/webapp/controller/SortController.java:178-185 | merging two sorted runs yields a sorted run |
| ExchangeSorts.BubbleSort | webapp/src/main/java/com/example/webapp/controller/SortController.java:110-123 | bubble sort leaves the array sorted and a permutation of the input; it records exactly its defined run, bracketed by un-highlighted copies of the input and the result, with indices only in `[0, n)`, only rearrangements of the input, and `2 + n(n-1)/2 + Inversions(input)` steps |
| ExchangeSorts.BubbleCorrect | webapp/src/main/java/com/example/webapp/controller/SortController.java:110-123 | the defined bubble run sorts, permutes, is bracketed and logged, and has `2 + n(n-1)/2 + Inversions(input)` steps |
| ExchangeSorts.BubblePasses | webapp/src/main/java/com/example/webapp/controller/SortController.java:113-121 | the outer loop leaves the defined array and records the defined steps |
| ExchangeSorts.BubblePass | webapp/src/main/java/com/example/webapp/controller/SortController.java:114-120 | one inner loop over `a[..m]` leaves the defined array and records the defined steps |
| ExchangeSorts.CompareAdjacent | webapp/src/main/java/com/example/webapp/controller/SortController.java:115-119 | the pair is recorded before the test, swapped exactly when `arr[j] > arr[j + 1]`, and recorded again only after a swap |
| ExchangeSorts.BubbleCompare | webapp/src/main/java/com/example/webapp/controller/SortController.java:115-118 | a comparison carries the largest element seen so far one place right and disturbs no settled element |
| ExchangeSorts.PassSettles | webapp/src/main/java/com/example/webapp/controller/SortController.java:114-120 | a pass over `a[..m]` settles position `m - 1` |
| ExchangeSorts.PassPerm | webapp/src/main/java/com/example/webapp/controller/SortController.java:114-120 | a pass only rearranges |
| ExchangeSorts.PassCount | webapp/src/main/java/com/example/webapp/controller/SortController.java:114-120 | a pass records one step per comparison plus one per swap, and each swap removes one inversion |
| ExchangeSorts.BubbleCount | webapp/src/main/java/com/example/webapp/controller/SortController.java:113-121 | the passes record one step per comparison plus one per inversion of the input |
| ExchangeSorts.SelectionSort | webapp/src/main/java/com/example/webapp/controller/SortController.java:125-138 | selection sort leaves the array sorted and a permutation of the input; it records exactly its defined run, bracketed, logged in `[0, n)`, rearrangements only, with `2 + n(n-1)/2 + (n - 1)` steps (2 when empty) |
| ExchangeSorts.SelectionCorrect | webapp/src/main/java/com/example/webapp/controller/SortController.java:125-138 | the defined selection run sorts, permutes, is bracketed and logged, and has `2 + n(n-1)/2 + (n - 1)` steps |
| ExchangeSorts.SelectionPasses | webapp/src/main/java/com/example/webapp/controller/SortController.java:128-136 | the outer loop leaves the defined array and records the defined steps |
| ExchangeSorts.SelectPass | webapp/src/main/java/com/example/webapp/controller/SortController.java:129-135 | a pass records its scan, then exactly one swap step `(i, minIndex)`, even when `minIndex == i` |
| ExchangeSorts.FindMin | webapp/src/main/java/com/example/webapp/controller/SortController.java:129-133 | the scan ends on the first occurrence of the minimum of `a[i..]` and records one step per compared `j` |
| ExchangeSorts.ScanMinIsMin | webapp/src/main/java/com/example/webapp/controller/SortController.java:130-133 | the defined scan settles on a minimum of `s[i..]` |
| ExchangeSorts.SelectPlaces | webapp/src/main/java/com/example/webapp/controller/SortController.java:129-135 | pass `i` extends the placed, sorted prefix by one |
| ExchangeSorts.SelectionCount | webapp/src/main/java/com/example/webapp/controller/SortController.java:128-136 | the passes record their comparisons plus one swap step each |
| ExchangeSorts.SelectionStepCountClosedForm | webapp/src/main/java/com/example/webapp/controller/SortController.java:128-136 | that count is `(n - i)(n - i + 1) / 2 - 1` from pass `i` on |
| Insertion.InsertionSort | js/main.js:93 | the JavaScript insertion sort leaves the array sorted and a permutation of the input, records its defined run bracketed and logged in `[0, n)`, with `2 + 2(n - 1) + Inversions(input)` steps (2 when empty) |
| Insertion.InsertionPasses | js/main.js:93 | the outer loop leaves the defined array and records the defined steps |
| Insertion.InsertPass | js/main.js:93 | one pass, with its shifting loop, leaves the defined array and records the defined steps |
| Insertion.ShiftMoves | js/main.js:93 | the shifting loop stops at the first element not above the key, moves every element it passes one place right, records one step per shift and leaves the rest |
| Insertion.InsertStops | js/main.js:93 | the key goes to the first position from which every element before `i` is above it, and the pass records two steps plus one per shift |
| Insertion.InsertShape | js/main.js:93 | a pass rotates the key into place: `s[..p] + [key] + s[p..i] + s[i + 1..]` |
| Insertion.InsertPerm | js/main.js:93 | a pass rearranges `s[..i + 1]` and leaves the rest |
| Insertion.InsertSorted | js/main.js:93 | a pass extends the sorted prefix by one |
| Insertion.InsertCount | js/main.js:93 | on a sorted prefix a pass shifts exactly the elements above the key |
| Insertion.InsertionCount | js/main.js:93 | the passes record two steps each plus one per inversion contributed by the later elements |
| Insertion.InsertionCorrect | js/main.js:93 | the defined JavaScript run sorts, permutes, is bracketed and logged, and has `2 + 2(n - 1) + Inversions(input)` steps |
| Insertion.JavaInsertionSort | webapp/src/main/java/com/example/webapp/controller/SortController.java:140-157 | the Java driver as written ends as its definition says: normally, or with the out-of-bounds exception, with the array and the steps recorded so far |
| Insertion.JavaInsertionPasses | webapp/src/main/java/com/example/webapp/controller/SortController.java:143-155 | the Java outer loop matches its definition, stopping at the first exception |
| Insertion.JavaInsertPass | webapp/src/main/java/com/example/webapp/controller/SortController.java:144-154 | one Java pass, with `j` stepped down twice per shift, matches its definition |
| Insertion.JavaThrowsOnDescendingStart | webapp/src/main/java/com/example/webapp/controller/SortController.java:146-153 | any input whose first two elements are out of order makes the Java driver throw |
| Insertion.JavaTwoOne | webapp/src/main/java/com/example/webapp/controller/SortController.java:146-153 | on `[2, 1]` the Java driver records active index -1, then throws with the 1 lost |
| Insertion.JavaLosesValue | webapp/src/main/java/com/example/webapp/controller/SortController.java:146-153 | on `[1, 3, 2]` the Java driver finishes with `[2, 3, 3]`, which is not a permutation of the input |
| Insertion.JavaAgreesOnSorted | webapp/src/main/java/com/example/webapp/controller/SortController.java:140-157 | on sorted input the Java driver shifts nothing and records exactly the JavaScript run |
| MergeSorting.MergeRuns | webapp/src/main/java/com/example/webapp/controller/SortController.java:174-186 | `merge` leaves exactly the array and the steps that `MergeRun` defines: `[left, right]` replaced by the stable merge of its two runs, the rest unchanged, every step highlighting only indices in `[left, right]` |
| MergeSorting.WriteBack | webapp/src/main/java/com/example/webapp/controller/SortController.java:177-185 | the three loops leave the defined array and record the defined steps |
| MergeSorting.MergeHeads | webapp/src/main/java/com/example/webapp/controller/SortController.java:178-183 | the first loop ends with one run used up, and what is still to come matches the definition |
| MergeSorting.TakeHead | webapp/src/main/java/com/example/webapp/controller/SortController.java:180-181 | the smaller head, the left one on ties, is written to `left + i + j` and its run moves on |
| MergeSorting.CopyLeftTail | webapp/src/main/java/com/example/webapp/controller/SortController.java:184 | the second loop copies the rest of the left run, as defined |
| MergeSorting.CopyRightTail | webapp/src/main/java/com/example/webapp/controller/SortController.java:185 | the third loop copies the rest of the right run, as defined |
| MergeSorting.MergeAdvance | webapp/src/main/java/com/example/webapp/controller/SortController.java:178-185 | one write of `merge`: ties go to the left run, and both heads are recorded only while both runs last |
| MergeSorting.MergeRestIsMerge | webapp/src/main/java/com/example/webapp/controller/SortController.java:178-185 | the loops take the runs in the order of the stable merge |
| MergeSorting.MergeValsShape | webapp/src/main/java/com/example/webapp/controller/SortController.java:178-185 | merging writes exactly the rest of the merge into its place and leaves every other position |
| MergeSorting.MergeLogged | webapp/src/main/java/com/example/webapp/controller/SortController.java:179-185 | every step of a merge copies the whole array and highlights only indices in the merged range |
| MergeSorting.MergeOfRuns | webapp/src/main/java/com/example/webapp/controller/SortController.java:174-186 | a whole merge puts the stable merge of the runs in their place |
| MergeSorting.MergeSortsRange | webapp/src/main/java/com/example/webapp/controller/SortController.java:174-186 | merging two sorted adjacent runs sorts their range, rearranges the array and leaves the outside alone |
| MergeSorting.MergeSort | webapp/src/main/java/com/example/webapp/controller/SortController.java:159-163 | merge sort records exactly `MergeSortSteps(input)`: the input, the steps of `mergeSortHelper(0, n - 1)`, the result; the result is sorted and a permutation of the input, and every step highlights only indices in `[0, n)` |
| MergeSorting.MergeSortHelper | webapp/src/main/java/com/example/webapp/controller/SortController.java:165-172 | `mergeSortHelper` leaves exactly the array and the steps that `MergeSortRun` defines: both halves in turn, then their merge |
| MergeSorting.SortLevel | webapp/src/main/java/com/example/webapp/controller/SortController.java:166-171 | sorting both halves, then merging them, sorts the range in place |
| MergeSorting.LoggedLevel | webapp/src/main/java/com/example/webapp/controller/SortController.java:166-171 | the steps of one level stay inside its range |
| MergeSorting.MergeShowsDuplicates | webapp/src/main/java/com/example/webapp/controller/SortController.java:180-182 | merging `[2]` and `[1]` records `[1, 1]`: merge-sort steps need not be permutations of the input |
| MergeSorting.MergeRunShape | webapp/src/main/java/com/example/webapp/controller/SortController.java:174-186 | the array `merge` leaves holds the stable merge of the two runs in `[left, right]` and the old values elsewhere |
| MergeSorting.MergeRunLogs | webapp/src/main/java/com/example/webapp/controller/SortController.java:179-185 | every step of `merge` highlights only indices in `[left, right]` |
| MergeSorting.Midpoint | webapp/src/main/java/com/example/webapp/controller/SortController.java:167 | `left + (right - left) / 2` splits `[left, right]` into two non-empty halves, the left one not shorter |
| MergeSorting.MergeSortLevel | webapp/src/main/java/com/example/webapp/controller/SortController.java:166-171 | one level of `mergeSortHelper`: both halves, then the merge, give exactly the level's defined array and steps |
| MergeSorting.MergeRunSorts | webapp/src/main/java/com/example/webapp/controller/SortController.java:165-172 | `mergeSortHelper` sorts `[left, right]` in place: sorted there, unchanged outside, same multiset |
| MergeSorting.MergeRunLogged | webapp/src/main/java/com/example/webapp/controller/SortController.java:165-172 | every step `mergeSortHelper` records highlights only indices in `[left, right]` |
| QuickSorting.Partition | webapp/src/main/java/com/example/webapp/controller/SortController.java:202-214 | `partition` returns an index in `[low, high]` and leaves exactly the array, the index and the steps that `PartitionRun` defines (what those are: PartitionCount, PartitionSides, PartitionFrame, PartitionRecords, PartitionLogged) |
| QuickSorting.PartitionScan | webapp/src/main/java/com/example/webapp/controller/SortController.java:203-210 | the scan does what `ScanFrom` defines from `j = low` with an empty front part: it gathers exactly the elements below the pivot at the front of the range, moves nothing outside `[low, high)`, keeps the multiset, and records one step per comparison and one per swap, inside `[low, high]`, all rearrangements |
| QuickSorting.ScanOne | webapp/src/main/java/com/example/webapp/controller/SortController.java:205-209 | one round records the comparison copy highlighting `(j, high)`; exactly when `arr[j] < pivot` it grows the front part by swapping `arr[j]` in behind it and records the array after the swap, highlighting `(i + 1, j)` |
| QuickSorting.QuickSortHelper | webapp/src/main/java/com/example/webapp/controller/SortController.java:194-200 | `quickSortHelper` leaves exactly the array and the steps that `QuickRun` defines: the partition, then the two sides in turn |
| QuickSorting.QuickSort | webapp/src/main/java/com/example/webapp/controller/SortController.java:188-192 | quick sort records exactly `QuickSortRun(input)`: the input, the steps of `quickSortHelper(0, n - 1)`, the result; the result is sorted and a permutation of the input; the run is bracketed, logged in `[0, n)` and records only rearrangements |
| QuickSorting.PartitionLevel | webapp/src/main/java/com/example/webapp/controller/SortController.java:195-199 | a partition, then both sides sorted in place, leave the range sorted in place |
| QuickSorting.RangePerm | webapp/src/main/java/com/example/webapp/controller/SortController.java:197-198 | sorting a range in place keeps the range's own multiset |
| QuickSorting.QuickLogged | webapp/src/main/java/com/example/webapp/controller/SortController.java:195-199 | the steps of one level stay inside its range and record rearrangements |
| QuickSorting.ScanLoop | webapp/src/main/java/com/example/webapp/controller/SortController.java:204-210 | the loop of `partition` does what `ScanFrom` defines, from `j = low` with an empty front part |
| QuickSorting.ScanRound | webapp/src/main/java/com/example/webapp/controller/SortController.java:205-209 | one comparison, and the swap when `arr[j] < pivot`, keep the loop on course for the defined scan |
| QuickSorting.ScanStop | webapp/src/main/java/com/example/webapp/controller/SortController.java:203-210 | a scan that ran as defined has gathered the elements below the pivot in front, left the rest of the array, kept the multiset, and recorded the stated number of logged, rearranged steps |
| QuickSorting.ScanResult | webapp/src/main/java/com/example/webapp/controller/SortController.java:203-210 | the defined scan over `[low, high)` puts exactly `CountBelow` elements, all below the pivot, in front, the others after, keeps the multiset and everything outside the range, and records `(high - low) + count` steps |
| QuickSorting.ScanFrame | webapp/src/main/java/com/example/webapp/controller/SortController.java:205-209 | the scan moves nothing up to the front part's end nor from `high` on |
| QuickSorting.ScanPerm | webapp/src/main/java/com/example/webapp/controller/SortController.java:205-209 | the scan only rearranges |
| QuickSorting.ScanCount | webapp/src/main/java/com/example/webapp/controller/SortController.java:205-209 | the scan's front part grows by the number of elements below the pivot, with one step per comparison and one per swap |
| QuickSorting.ScanLogged | webapp/src/main/java/com/example/webapp/controller/SortController.java:205-209 | the scan's steps highlight only indices in `[low, high]` |
| QuickSorting.ScanRearranged | webapp/src/main/java/com/example/webapp/controller/SortController.java:205-209 | the scan records only rearrangements of its input |
| QuickSorting.PartitionClose | webapp/src/main/java/com/example/webapp/controller/SortController.java:211-213 | the closing swap of `arr[i + 1]` and `arr[high]` and its step complete the defined partition |
| QuickSorting.PivotSwap | webapp/src/main/java/com/example/webapp/controller/SortController.java:211 | after the closing swap the pivot sits at `i + 1`, smaller elements before it, the rest after |
| QuickSorting.PartitionCount | webapp/src/main/java/com/example/webapp/controller/SortController.java:202-214 | the returned index is `low` plus the number of elements of `arr[low..high)` below the pivot |
| QuickSorting.PartitionSides | webapp/src/main/java/com/example/webapp/controller/SortController.java:202-214 | the pivot `arr[high]` ends at the returned index with smaller elements before it and the rest after |
| QuickSorting.PartitionShape | webapp/src/main/java/com/example/webapp/controller/SortController.java:202-214 | the partitioned range is split around the pivot position as quick sort needs |
| QuickSorting.PartitionFrame | webapp/src/main/java/com/example/webapp/controller/SortController.java:202-214 | `partition` changes nothing outside `[low, high]` and keeps the multiset |
| QuickSorting.PartitionRecords | webapp/src/main/java/com/example/webapp/controller/SortController.java:202-214 | `partition` records `(high - low) + (p - low) + 1` steps |
| QuickSorting.PartitionLogged | webapp/src/main/java/com/example/webapp/controller/SortController.java:202-214 | every step of `partition` highlights only indices in `[low, high]` and records a rearrangement of the input |
| QuickSorting.QuickLevel | webapp/src/main/java/com/example/webapp/controller/SortController.java:195-199 | one level of `quickSortHelper`: partition, then both sides, give exactly the level's defined array and steps |
| QuickSorting.QuickRunPerm | webapp/src/main/java/com/example/webapp/controller/SortController.java:194-200 | `quickSortHelper` keeps the multiset |
| QuickSorting.QuickRunSorts | webapp/src/main/java/com/example/webapp/controller/SortController.java:194-200 | `quickSortHelper` sorts `[low, high]` in place: sorted there, unchanged outside, same multiset |
| QuickSorting.QuickRunRecords | webapp/src/main/java/com/example/webapp/controller/SortController.java:194-200 | every step `quickSortHelper` records highlights only indices in `[low, high]` and is a rearrangement of the input |
| BogoSorting.IsSorted | webapp/src/main/java/com/example/webapp/controller/SortController.java:271-274 | `isSorted` returns true exactly when every adjacent pair is in order, that is, when the array is sorted |
| BogoSorting.Pick | webapp/src/main/java/com/example/webapp/controller/SortController.java:278 | the random index of round `i` lies in `[0, i]` |
| BogoSorting.ShuffledPerm | webapp/src/main/java/com/example/webapp/controller/SortController.java:276-281 | a shuffle only rearranges |
| BogoSorting.Shuffle | webapp/src/main/java/com/example/webapp/controller/SortController.java:276-281 | `shuffle` performs the defined swaps, from the last index down to 1 |
| BogoSorting.ShuffleRunSorted | webapp/src/main/java/com/example/webapp/controller/SortController.java:218 | the defined loop reports sorted exactly when its final array is sorted |
| BogoSorting.ShuffleRunPerm | webapp/src/main/java/com/example/webapp/controller/SortController.java:218-223 | the defined loop keeps the multiset, and every shuffle step is a rearrangement of the input |
| BogoSorting.ShuffleRunLogged | webapp/src/main/java/com/example/webapp/controller/SortController.java:220-222 | every shuffle step copies the whole array and highlights all indices `0 .. n - 1` |
| BogoSorting.ShuffleRunUnsortedBefore | webapp/src/main/java/com/example/webapp/controller/SortController.java:218-223 | no shuffle step but the last shows a sorted array: the loop test stops at the first sorted array |
| BogoSorting.ShuffleRunLast | webapp/src/main/java/com/example/webapp/controller/SortController.java:218-223 | the last shuffle step shows the final array |
| BogoSorting.ShuffleRunSortedLast | webapp/src/main/java/com/example/webapp/controller/SortController.java:218-223 | a shuffle step shows a sorted array exactly when it is the last one of a finished run |
| BogoSorting.ShuffleRunDraws | webapp/src/main/java/com/example/webapp/controller/SortController.java:276-281 | each shuffle uses one round of `n - 1` draws, and the loop stops unfinished only when less than a round is left |
| BogoSorting.ShuffleStopSorted | webapp/src/main/java/com/example/webapp/controller/SortController.java:218-223 | the facts of the defined loop about sortedness, the last shuffle and the draws, for the state the loop ends in |
| BogoSorting.ShuffleStopLogged | webapp/src/main/java/com/example/webapp/controller/SortController.java:218-223 | the facts of the defined loop about the multiset, the highlights and sorted input, for the state the loop ends in |
| BogoSorting.ShuffleTie | webapp/src/main/java/com/example/webapp/controller/SortController.java:218 | when the loop test fails or the draws run out, what is left to do is nothing |
| BogoSorting.ShuffleOne | webapp/src/main/java/com/example/webapp/controller/SortController.java:219-222 | one round of the loop, a shuffle and its step, keeps the loop on course for the defined run |
| BogoSorting.BogoFrame | webapp/src/main/java/com/example/webapp/controller/SortController.java:216-225 | framing the shuffle steps by the opening and closing copies keeps them logged and rearranged, and only the last two steps of a finished run show a sorted array |
| BogoSorting.ShuffleUntilSorted | webapp/src/main/java/com/example/webapp/controller/SortController.java:218-223 | the loop does what `ShuffleRun` defines: it ends sorted exactly when it reports so; only the last shuffle step, and only in a finished run, shows a sorted array, and the last one shows the final array; it uses one full round of draws per shuffle, and stops unfinished only when fewer than a round are left; it keeps the multiset, highlights every index in each shuffle step, and shuffles nothing when the input is sorted |
| BogoSorting.BogoSort | webapp/src/main/java/com/example/webapp/controller/SortController.java:216-225 | `bogoSort` records exactly `BogoSteps(input, draws)`: the input, one step per shuffle, and the result when it finishes; a finished run is sorted, a permutation of the input and bracketed; no step before the last two shows a sorted array; each shuffle step highlights all indices; an unfinished run has used up its draws; sorted input gives exactly two steps |
| StalinSorting.JavaStalinSort | webapp/src/main/java/com/example/webapp/controller/SortController.java:227-249 | the Java driver changes nothing and records exactly the defined run |
| StalinSorting.JsStalinSort | js/main.js:101-121 | the JavaScript driver changes nothing and records exactly its defined run |
| StalinSorting.RunningMaxIsMax | webapp/src/main/java/com/example/webapp/controller/SortController.java:234-245 | `max_val` is the maximum of the prefix and sits at `max_idx` |
| StalinSorting.PurgedIff | webapp/src/main/java/com/example/webapp/controller/SortController.java:240-241 | index `x` is eliminated exactly when `x >= 1` and `arr[x]` is below the maximum of `arr[0..x)`; index 0 never is |
| StalinSorting.PurgedIncreasing | webapp/src/main/java/com/example/webapp/controller/SortController.java:237-246 | the eliminated list is strictly increasing and lies in `[1, n)` |
| StalinSorting.SurvivorsSorted | webapp/src/main/java/com/example/webapp/controller/SortController.java:237-246 | the values kept, read in order, are non-descending and end at the running maximum |
| StalinSorting.SurvivorsCount | webapp/src/main/java/com/example/webapp/controller/SortController.java:237-246 | every value is either kept or eliminated |
| StalinSorting.SurvivorsUnpurged | webapp/src/main/java/com/example/webapp/controller/SortController.java:237-246 | the values kept are exactly the values at the indices not in the eliminated list, in order |
| StalinSorting.JavaStalinCorrect | webapp/src/main/java/com/example/webapp/controller/SortController.java:227-249 | every step shows the unchanged array with indices in `[0, n)`; the first highlights and eliminates nothing; there are `n + 1` steps (1 when empty); the last lists exactly the eliminated indices |
| StalinSorting.JsStalinCorrect | js/main.js:101-121 | the same, with `n + 1 + |eliminated|` steps, and the last step equal to the Java driver's |
| Wave.RotateLeft | webapp/src/main/java/com/example/webapp/controller/SortController.java:260-262 | one rotation moves each element one place left and the first to the end |
| Wave.ShiftLeft | webapp/src/main/java/com/example/webapp/controller/SortController.java:260-262 | the `arraycopy` and write-back rotate the array left by one |
| Wave.RotatedIndex | webapp/src/main/java/com/example/webapp/controller/SortController.java:258-266 | after `k` rotations position `i` holds `orig[(i + k) mod n]` |
| Wave.RotatedStep | webapp/src/main/java/com/example/webapp/controller/SortController.java:260-262 | one more rotation advances that formula by one |
| Wave.RotatedPeriod | webapp/src/main/java/com/example/webapp/controller/SortController.java:258-268 | any multiple of `n` rotations gives the input back |
| Wave.RotatedPerm | webapp/src/main/java/com/example/webapp/controller/SortController.java:258-266 | rotation only rearranges |
| Wave.WaveAnimation | webapp/src/main/java/com/example/webapp/controller/SortController.java:251-269 | `waveAnimation` records exactly `WaveRun(input)`: no steps for an empty array, otherwise `5n + 2` steps, step `k` the `k`-fold rotation highlighting `n - 1`, bracketed by the input; the array ends as it began |
| Wave.WaveLogged | webapp/src/main/java/com/example/webapp/controller/SortController.java:255-268 | a wave run records only rearrangements of the input and highlights only indices in `[0, n)` |
| Wave.WaveRecordIndex | webapp/src/main/java/com/example/webapp/controller/SortController.java:258-266 | the `k`-th step recorded by the loop is the `(k + 1)`-fold rotation highlighting `n - 1` |
| Wave.WaveRunIndex | webapp/src/main/java/com/example/webapp/controller/SortController.java:251-269 | the defined wave run has `5n + 2` steps, opens and closes with the input, and step `k` is the `k`-fold rotation highlighting `n - 1` |
| Wave.WaveRunLogged | webapp/src/main/java/com/example/webapp/controller/SortController.java:251-269 | the defined wave run is bracketed by the input, logged in `[0, n)`, and records only rearrangements |
| Wave.WaveRunUnique | webapp/src/main/java/com/example/webapp/controller/SortController.java:251-269 | any step list of that shape is the defined wave run |
| Wave.JsWaveSort | js/main.js:122-135 | `shift` and `push` record exactly `WaveRun(input)`, the same run as the Java driver, and the final list equals the input |
| Dispatch.NamesSelect | webapp/src/main/java/com/example/webapp/controller/SortController.java:26-33 | each driver is selected by its own sort-type name and by no other |
| Dispatch.Sort | webapp/src/main/java/com/example/webapp/controller/SortController.java:65-92 | the handler gives exactly `JavaResponse`: an empty parse gives the error message and nothing else; an unknown type gives no steps and the unchanged array; otherwise the steps and final array of the named driver's defined run, with the flattened final array as the saved text; only insertion can throw, only bogo can be unfinished; bubble, selection, merge, quick and a finished bogo end sorted; only Java insertion can break the permutation; Stalin and wave keep the array |
| Dispatch.RunJavaDriver | webapp/src/main/java/com/example/webapp/controller/SortController.java:74-84 | the `switch` runs exactly the named driver: array, steps and completion are those of that driver's defined run (`JavaDriverRun`), with the per-driver guarantees of JavaDriverFacts |
| Dispatch.JavaDriverFacts | webapp/src/main/java/com/example/webapp/controller/SortController.java:74-84 | a Java driver run is unfinished only for insertion or bogo; it keeps the multiset unless it is insertion; the sorting drivers end sorted; Stalin and wave keep the array |
| Dispatch.DriverFacts | js/main.js:178-193 | every driver but insertion keeps the multiset, is unfinished only for bogo, ends sorted when it sorts, and keeps the array for Stalin and wave |
| Ordering.WholeSortedInPlace | webapp/src/main/java/com/example/webapp/controller/SortController.java:159-163 | sorting `[0, n - 1]` in place sorts the whole array and keeps its multiset |
| Dispatch.StartSort | js/main.js:166-193 | the handler gives exactly `JsStarted`: text that is not exactly eight digits gives the alert; otherwise the named driver's defined run on the eight values; an unknown type gives no steps and the unchanged array; every played result is a permutation; all sorting drivers, insertion included, end sorted; Stalin and wave keep the array |
| Dispatch.RunJsDriver | js/main.js:178-193 | the `switch` runs exactly the named driver on the copy (`JsDriverRun`), keeps its multiset, and sorts for every sorting driver |
| Dispatch.JsDriverFacts | js/main.js:178-193 | a JavaScript driver run keeps the multiset, is unfinished only for bogo, ends sorted for every sorting driver, insertion included, and keeps the array for Stalin and wave |

## Left out

- The Spring MVC plumbing is not modelled: the model attributes at `SortController.java:61-62` and 86, and the view names. Neither is persistence at `SortController.java:89-94`: the entity, the repository and `LocalDateTime.now()`. Only the flattened text that would be saved (line 92) is modelled.
- `SortResult.java` and `SortResultRepository.java` are not part of this model. They hold no logic.
- Everything DOM, GSAP and timer related in `js/main.js` is not modelled: drawing, animation, descriptions, `stopAllAnimations`, and the event wiring. This includes the undeclared `waveMotionTween` in the animation code.
- The random-digit generator at `js/main.js:197-207` is not modelled; it only feeds the UI.
- `Math.random` is replaced by the `draws` stream; the distribution of the shuffles is not modelled.
- BogoSorting.BogoSort: bogo sort need not terminate. The model runs until fewer draws than one shuffle needs are left, and then reports an unfinished run, without the closing step.
- `Character.isDigit` also accepts non-ASCII digits, such as full-width ones, for which `c - '0'` is far outside 0-9. The model accepts only `'0'`-`'9'`.
- Java `int` arithmetic is modelled with unbounded integers. The values are single digits and `n * 5` is far from overflow at these sizes.
- Dispatch.Sort: the Java insertion sort's `ArrayIndexOutOfBoundsException` ends the handler as `Crashed`. What the web framework then shows is not modelled.
- MergeSorting.MergeSort: does not state that every step is a rearrangement of the input, because that is false; see MergeSorting.MergeShowsDuplicates. The number of its steps is not given in closed form; it is fixed by MergeSorting.MergeSortSteps.
- QuickSorting.QuickSort: the number of steps depends on the pivots. It is not given in closed form; it is fixed by QuickSorting.QuickSortRun and stated per partition (QuickSorting.PartitionRecords).
- Dispatch.StartSort: the JavaScript drivers that are textually the same as the Java ones are run through the same members, so the model does not distinguish them.

## Findings

| source | as written | input that shows it | evidently intended | confidence | as-written member | corrected member |
|---|---|---|---|---|---|---|
| webapp/src/main/java/com/example/webapp/controller/SortController.java:146-153 | the shifting loop of the Java insertion sort decrements `j` twice per shift (lines 149 and 151). It records active index -1, can overwrite an element it never moved, and writes `arr[-1]` when the shift reaches index 0 | `[2, 1]` throws `ArrayIndexOutOfBoundsException` at line 153 after recording active index -1; `[1, 3, 2]` ends as `[2, 3, 3]` | one decrement per shift, as in `js/main.js:93`: the array ends sorted and a permutation of the input, with `2 + 2(n - 1) + Inversions(input)` steps | not executed | Insertion.JavaLosesValue | Insertion.InsertionCorrect |

The Java handler (Dispatch.Sort) keeps the as-written driver, so that it stays faithful to the controller. The JavaScript handler (Dispatch.StartSort) uses the corrected driver, Insertion.InsertionSort. Insertion.JavaTwoOne and Insertion.JavaThrowsOnDescendingStart show the exception path of the same defect.
