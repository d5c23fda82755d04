/** The input normalizer: the Java `parseNumbers` filter, the flattening of the
    final array into the saved digit string, and the JavaScript start handler's
    eight-digit check. */
module Normalizer {
  import opened Wrappers

  /** `Character.isDigit`, restricted to the ASCII digits. */
  predicate IsDigit(c: char) {
    '0' <= c <= '9'
  }

  /** `trim().isEmpty()`: `trim` strips every character up to U+0020 from both
      ends, so the text is blank when it holds no other character. */
  predicate IsBlank(s: string) {
    forall k :: 0 <= k < |s| ==> s[k] <= ' '
  }

  /** `c - '0'` */
  function DigitValue(c: char): int {
    c as int - '0' as int
  }

  /** `chars().filter(Character::isDigit).map(c -> c - '0')`. */
  function DigitValues(s: string): (r: seq<int>)
    ensures |r| <= |s|
    ensures forall k :: 0 <= k < |r| ==> 0 <= r[k] <= 9
  {
    if s == [] then []
    else (if IsDigit(s[0]) then [DigitValue(s[0])] else []) + DigitValues(s[1..])
  }

  /** `parseNumbers`: null or blank text gives no numbers; otherwise every digit
      character's value, in order. */
  function ParseNumbers(numbers: Option<string>): (r: seq<int>)
    ensures numbers.None? ==> r == []
    ensures numbers.Some? ==> |r| <= |numbers.value|
    ensures forall k :: 0 <= k < |r| ==> 0 <= r[k] <= 9
  {
    if numbers.None? || IsBlank(numbers.value) then [] else DigitValues(numbers.value)
  }

  /** The filter distributes over concatenation: each character contributes on
      its own (one value per digit, nothing per non-digit), in input order. */
  lemma {:induction false} DigitValuesAppend(s: string, t: string)
    ensures DigitValues(s + t) == DigitValues(s) + DigitValues(t)
    decreases |s|
  {
    if s != [] {
      assert (s + t)[1..] == s[1..] + t;
      DigitValuesAppend(s[1..], t);
    } else {
      assert s + t == t;
    }
  }

  /** One character on its own: a digit gives its value, anything else nothing. */
  lemma DigitValuesOfChar(c: char)
    ensures DigitValues([c]) == if IsDigit(c) then [c as int - '0' as int] else []
  {
    assert [c][1..] == [];
  }

  /** Blank text holds no digit, so the early return of `parseNumbers` agrees
      with the filter: for non-null text the result is exactly the filter. */
  lemma {:induction false} ParseNumbersIsDigitFilter(s: string)
    ensures ParseNumbers(Some(s)) == DigitValues(s)
    ensures (forall k :: 0 <= k < |s| ==> !IsDigit(s[k])) ==> ParseNumbers(Some(s)) == []
  {
    if IsBlank(s) {
      NoDigitsNoValues(s);
    }
    if forall k :: 0 <= k < |s| ==> !IsDigit(s[k]) {
      NoDigitsNoValues(s);
    }
  }

  lemma {:induction false} NoDigitsNoValues(s: string)
    requires forall k :: 0 <= k < |s| ==> !IsDigit(s[k])
    ensures DigitValues(s) == []
    decreases |s|
  {
    if s != [] {
      NoDigitsNoValues(s[1..]);
    }
  }

  /** The character of a digit value 0-9. */
  function DigitChar(d: int): char
    requires 0 <= d <= 9
  {
    ('0' as int + d) as char
  }

  /** `String.valueOf(int)` for a non-negative value: its decimal digits. */
  function NaturalString(x: nat): string
    decreases x
  {
    if x < 10 then [DigitChar(x)] else NaturalString(x / 10) + [DigitChar(x % 10)]
  }

  /** `String.valueOf(int)`: a minus sign before the digits of a negative value. */
  function DecimalString(x: int): string {
    if x < 0 then "-" + NaturalString(-x) else NaturalString(x)
  }

  /** `Arrays.stream(array).mapToObj(String::valueOf).collect(Collectors.joining())`:
      the text saved as the sorted numbers. */
  function Flatten(vals: seq<int>): string {
    if vals == [] then "" else DecimalString(vals[0]) + Flatten(vals[1..])
  }

  predicate AllDigits(s: string) {
    forall k :: 0 <= k < |s| ==> IsDigit(s[k])
  }

  predicate AllDigitValues(vals: seq<int>) {
    forall k :: 0 <= k < |vals| ==> 0 <= vals[k] <= 9
  }

  /** Flattening the parsed values of a digits-only text gives the text back. */
  lemma {:induction false} FlattenParsed(s: string)
    requires AllDigits(s)
    ensures Flatten(ParseNumbers(Some(s))) == s
  {
    ParseNumbersIsDigitFilter(s);
    FlattenDigitValues(s);
  }

  lemma {:induction false} FlattenDigitValues(s: string)
    requires AllDigits(s)
    ensures Flatten(DigitValues(s)) == s
    decreases |s|
  {
    if s != [] {
      FlattenDigitValues(s[1..]);
      var v := DigitValues(s);
      assert v == [DigitValue(s[0])] + DigitValues(s[1..]);
      assert v[1..] == DigitValues(s[1..]);
      assert DecimalString(v[0]) == [s[0]];
      assert s == [s[0]] + s[1..];
    }
  }

  /** Parsing the flattened text of single-digit values gives the values back. */
  lemma {:induction false} ParseFlattened(vals: seq<int>)
    requires AllDigitValues(vals)
    ensures ParseNumbers(Some(Flatten(vals))) == vals
  {
    FlattenIsDigits(vals);
    ParseNumbersIsDigitFilter(Flatten(vals));
    DigitValuesFlatten(vals);
  }

  lemma {:induction false} FlattenIsDigits(vals: seq<int>)
    requires AllDigitValues(vals)
    ensures |Flatten(vals)| == |vals|
    ensures forall k :: 0 <= k < |vals| ==> Flatten(vals)[k] == DigitChar(vals[k])
    decreases |vals|
  {
    if vals != [] {
      FlattenIsDigits(vals[1..]);
      assert DecimalString(vals[0]) == [DigitChar(vals[0])];
      forall k | 0 <= k < |vals| ensures Flatten(vals)[k] == DigitChar(vals[k]) {
        if k > 0 { assert Flatten(vals)[k] == Flatten(vals[1..])[k - 1]; }
      }
    }
  }

  lemma {:induction false} DigitValuesFlatten(vals: seq<int>)
    requires AllDigitValues(vals)
    ensures DigitValues(Flatten(vals)) == vals
    decreases |vals|
  {
    if vals != [] {
      var f := Flatten(vals);
      FlattenIsDigits(vals);
      assert DecimalString(vals[0]) == [DigitChar(vals[0])];
      assert f[1..] == Flatten(vals[1..]);
      DigitValuesFlatten(vals[1..]);
      assert f[0] == DigitChar(vals[0]) && IsDigit(f[0]);
    }
  }

  /** `/^\d{8}$/.test(numbersStr)`: exactly eight characters, each an ASCII digit
      (`\d` in a JavaScript pattern matches `0`-`9` only). */
  predicate IsEightDigits(s: string) {
    |s| == 8 && AllDigits(s)
  }

  /** `numbersStr.split('').map(Number)` on digits-only text. */
  function SplitDigits(s: string): seq<int>
    requires AllDigits(s)
  {
    seq(|s|, k requires 0 <= k < |s| => DigitValue(s[k]))
  }

  /** Text the start handler accepts becomes eight values, each 0-9, the same
      values the Java filter would produce from it. */
  lemma {:induction false} EightDigitsAccepted(s: string)
    requires IsEightDigits(s)
    ensures |SplitDigits(s)| == 8
    ensures forall k :: 0 <= k < 8 ==> 0 <= SplitDigits(s)[k] <= 9 && SplitDigits(s)[k] == s[k] as int - '0' as int
    ensures SplitDigits(s) == ParseNumbers(Some(s))
  {
    ParseNumbersIsDigitFilter(s);
    AllDigitsValues(s);
  }

  lemma {:induction false} AllDigitsValues(s: string)
    requires AllDigits(s)
    ensures DigitValues(s) == SplitDigits(s)
    decreases |s|
  {
    if s != [] {
      AllDigitsValues(s[1..]);
      assert SplitDigits(s) == [DigitValue(s[0])] + SplitDigits(s[1..]);
    }
  }
}
