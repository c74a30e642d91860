/** Day 1, part 1: the calibration value of a line is its first and last
    decimal digit read as a two-digit number, and the answer is the sum
    over all lines (day1.rs). */
module Day1Part1 {
  import opened Common
  import opened Text

  /** The digits of the line, in order (`chars().filter(|c| c.is_digit(10))`). */
  function Digits(s: string): (ds: string)
    ensures AllDigits(ds) && |ds| <= |s|
  {
    if s == [] then []
    else Digits(s[..|s| - 1]) + (if IsDigit(s[|s| - 1]) then [s[|s| - 1]] else [])
  }

  /** `first().unwrap_or(&'0')` on the digits. */
  function FirstDigit(s: string): (c: char)
    ensures IsDigit(c)
  {
    var ds := Digits(s);
    if ds == [] then '0' else ds[0]
  }

  /** `last().unwrap_or(&'0')` on the digits. */
  function LastDigit(s: string): (c: char)
    ensures IsDigit(c)
  {
    var ds := Digits(s);
    if ds == [] then '0' else ds[|ds| - 1]
  }

  /** The digits of a concatenation are those of its halves. */
  lemma {:induction false} DigitsConcat(a: string, b: string)
    ensures Digits(a + b) == Digits(a) + Digits(b)
    decreases |b|
  {
    if b == [] {
      assert a + b == a;
    } else {
      assert (a + b)[..|a + b| - 1] == a + b[..|b| - 1];
      DigitsConcat(a, b[..|b| - 1]);
    }
  }

  /** Two digits formatted side by side always parse as an `i32`, to ten
      times the first plus the second. */
  lemma TwoDigitsParse(a: char, b: char)
    requires IsDigit(a) && IsDigit(b)
    ensures ParseI32([a, b]) == Some(10 * DigitValue(a) + DigitValue(b))
  {
    var s := [a, b];
    assert AllDigits(s);
    assert s[..1] == [a] && [a][..0] == [];
    assert DecimalValue([a]) == DigitValue(a);
    assert DecimalValue(s) == 10 * DecimalValue([a]) + DigitValue(b);
  }

  /** `join_first_last`: the first and the last digit (each `'0'` when the
      line has none) formatted together and parsed back with `unwrap`,
      which never panics. */
  function JoinFirstLast(line: string): (num: int)
    ensures 0 <= num <= 99
  {
    var text := [FirstDigit(line), LastDigit(line)];
    TwoDigitsParse(text[0], text[1]);
    ParseI32(text).value
  }

  /** Column `i` holds the first digit of `s`. */
  predicate FirstDigitAt(s: string, i: nat)
  {
    i < |s| && IsDigit(s[i]) && forall k :: 0 <= k < i ==> !IsDigit(s[k])
  }

  /** Column `j` holds the last digit of `s`. */
  predicate LastDigitAt(s: string, j: nat)
  {
    j < |s| && IsDigit(s[j]) && forall k :: j < k < |s| ==> !IsDigit(s[k])
  }

  /** The filter keeps no digit exactly when the line has none, and
      otherwise starts with the line's first digit and ends with its last. */
  lemma {:induction false} DigitsEnds(s: string, i: nat, j: nat)
    ensures Digits(s) == [] <==> forall k :: 0 <= k < |s| ==> !IsDigit(s[k])
    ensures FirstDigitAt(s, i) ==> Digits(s) != [] && Digits(s)[0] == s[i]
    ensures LastDigitAt(s, j) ==> Digits(s) != [] && Digits(s)[|Digits(s)| - 1] == s[j]
  {
    if s != [] {
      var front := s[..|s| - 1];
      DigitsEnds(front, i, j);
      assert forall k :: 0 <= k < |front| ==> front[k] == s[k];
      if FirstDigitAt(s, i) && i < |front| {
        assert FirstDigitAt(front, i);
      }
      if FirstDigitAt(s, i) && i == |front| {
        assert forall k :: 0 <= k < |front| ==> !IsDigit(front[k]);
      }
      if LastDigitAt(s, j) && j < |front| {
        assert !IsDigit(s[|s| - 1]);
        assert LastDigitAt(front, j);
      }
    }
  }

  /** The calibration value is ten times the line's first digit plus its
      last digit. */
  lemma JoinFirstLastSpec(line: string, i: nat, j: nat)
    requires FirstDigitAt(line, i) && LastDigitAt(line, j)
    ensures JoinFirstLast(line) == 10 * DigitValue(line[i]) + DigitValue(line[j])
  {
    DigitsEnds(line, i, j);
    TwoDigitsParse(FirstDigit(line), LastDigit(line));
  }

  /** A line without digits is worth 0, through the `'0'` fallbacks. */
  lemma NoDigitsIsZero(line: string)
    requires forall k :: 0 <= k < |line| ==> !IsDigit(line[k])
    ensures JoinFirstLast(line) == 0
  {
    DigitsEnds(line, 0, 0);
    TwoDigitsParse('0', '0');
  }

  /** A line with a single digit `d` is worth `11 * d`: the digit is both
      first and last (`"treb7uchet"` gives 77). */
  lemma SingleDigit(line: string, i: nat)
    requires i < |line| && IsDigit(line[i])
    requires forall k :: 0 <= k < |line| && k != i ==> !IsDigit(line[k])
    ensures JoinFirstLast(line) == 11 * DigitValue(line[i])
  {
    JoinFirstLastSpec(line, i, i);
  }

  /** The value of every line, in order. */
  function Values(lines: seq<string>): (vs: seq<int>)
    ensures |vs| == |lines| && forall i :: 0 <= i < |lines| ==> vs[i] == JoinFirstLast(lines[i])
  {
    seq(|lines|, i requires 0 <= i < |lines| => JoinFirstLast(lines[i]))
  }

  /** `traverse_lines`: the values added one by one to an `i32` sum; `None`
      when a running sum leaves the `i32` range (the overflow panic). */
  method TraverseLines(lines: seq<string>) returns (r: Option<int>)
    ensures r.Some? <==> RunningSumsFit(Values(lines))
    ensures r.Some? ==> r.value == Sum(Values(lines))
  {
    ghost var vs := Values(lines);
    var sum := 0;
    assert vs[..0] == [];
    for i := 0 to |lines|
      invariant sum == Sum(vs[..i])
      invariant RunningSumsFit(vs[..i])
    {
      var v := JoinFirstLast(lines[i]);
      assert v == vs[i];
      if !FitsI32(sum + v) {
        assert !RunningSumsFit(vs) by { RunningSumsStep(vs, i); }
        return None;
      }
      assert RunningSumsFit(vs[..i + 1]) && sum + v == Sum(vs[..i + 1]) by { RunningSumsStep(vs, i); }
      sum := sum + v;
    }
    assert vs[..|lines|] == vs;
    return Some(sum);
  }

  /** With every value at most 99, the sum cannot overflow before the
      input has more than `I32_MAX / 99` lines. */
  lemma TraverseLinesFits(lines: seq<string>)
    requires |lines| * 99 <= I32_MAX
    ensures RunningSumsFit(Values(lines))
  {
    SmallValuesFit(Values(lines), 99);
  }

  /** The test input, split at `'\n'` (its closing line break leaves an
      empty last line). */
  const EXAMPLE: seq<string> := ["1abc2", "pqr3stu8vwx", "a1b2c3d4e5f", "treb7uchet", ""]

  /** The unit tests: 12, 38, 15 and 77 (and 0 for the empty last line). */
  lemma ExampleLine(i: nat)
    requires i < |EXAMPLE|
    ensures JoinFirstLast(EXAMPLE[i]) == [12, 38, 15, 77, 0][i]
  {
    if i == 0 {
      JoinFirstLastSpec(EXAMPLE[0], 0, 4);
    } else if i == 1 {
      JoinFirstLastSpec(EXAMPLE[1], 3, 7);
    } else if i == 2 {
      JoinFirstLastSpec(EXAMPLE[2], 1, 9);
    } else if i == 3 {
      SingleDigit(EXAMPLE[3], 4);
    } else {
      NoDigitsIsZero(EXAMPLE[4]);
    }
  }

  /** The test of `traverse_lines`: 142 in total. */
  lemma ExampleTotal()
    ensures RunningSumsFit(Values(EXAMPLE)) && Sum(Values(EXAMPLE)) == 142
  {
    forall i | 0 <= i < |EXAMPLE|
      ensures Values(EXAMPLE)[i] == [12, 38, 15, 77, 0][i]
    {
      ExampleLine(i);
    }
    assert Values(EXAMPLE) == [12, 38, 15, 77, 0];
    TraverseLinesFits(EXAMPLE);
  }
}
