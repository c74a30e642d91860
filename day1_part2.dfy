/** Day 1, part 2: the words `one` to `nine` count as digits too. Each
    word is rewritten, in that fixed order, to its first letter, its digit
    and its last letter, so that words sharing a letter (`"eightwo"`) both
    survive; the rewritten line is then read as in part 1 (day1p2.rs). */
module Day1Part2 {
  import opened Common
  import opened Text
  import Day1Part1

  const WORDS: seq<string> := ["one", "two", "three", "four", "five", "six", "seven", "eight", "nine"]

  /** The replacement of each word, as written in `join_first_last`. */
  const MARKS: seq<string> := ["o1e", "t2o", "t3e", "f4r", "f5e", "s6x", "s7n", "e8t", "n9e"]

  /** Each replacement is the word's first letter, its digit and its last
      letter, and no word contains a digit. */
  lemma MarksShape(n: nat)
    requires n < 9
    ensures |WORDS| == |MARKS| == 9 && |WORDS[n]| >= 3 && |MARKS[n]| == 3
    ensures MARKS[n][0] == WORDS[n][0] && MARKS[n][2] == WORDS[n][|WORDS[n]| - 1]
    ensures IsDigit(MARKS[n][1]) && DigitValue(MARKS[n][1]) == n + 1
    ensures Day1Part1.Digits(WORDS[n]) == [] && Day1Part1.Digits(MARKS[n]) == [MARKS[n][1]]
  {
    Day1Part1.DigitsEnds(WORDS[n], 0, 0);
    var m := MARKS[n];
    assert m[..2][..1] == [m[0]] && [m[0]][..0] == [];
  }

  /** The line after the first `n` replacements. */
  function CookUpTo(line: string, n: nat): string
    requires n <= 9
  {
    if n == 0 then line else Replace(CookUpTo(line, n - 1), WORDS[n - 1], MARKS[n - 1])
  }

  /** The chain of nine `replace` calls of `join_first_last`. */
  function Cook(line: string): string
  {
    CookUpTo(line, 9)
  }

  /** `join_first_last`: part 1's reading of the rewritten line. */
  function JoinFirstLast(line: string): (num: int)
    ensures 0 <= num <= 99
  {
    Day1Part1.JoinFirstLast(Cook(line))
  }

  /** No digit word occurs anywhere in the line. */
  predicate NoWord(line: string)
  {
    forall n: nat, j: nat :: n < 9 && j < |line| ==> !OccursAt(line, WORDS[n], j)
  }

  /** A line without digit words is left as it is and read as in part 1. */
  lemma CookPlain(line: string)
    requires NoWord(line)
    ensures Cook(line) == line
    ensures JoinFirstLast(line) == Day1Part1.JoinFirstLast(line)
  {
    CookUpToPlain(line, 9);
  }

  lemma {:induction false} CookUpToPlain(line: string, n: nat)
    requires n <= 9 && NoWord(line)
    ensures CookUpTo(line, n) == line
  {
    if n > 0 {
      CookUpToPlain(line, n - 1);
      ReplaceAbsent(line, WORDS[n - 1], MARKS[n - 1]);
    }
  }

  /** A line without lower-case letters has no digit word in it. */
  lemma NoLettersNoWord(line: string)
    requires forall k :: 0 <= k < |line| ==> !('a' <= line[k] <= 'z')
    ensures NoWord(line)
  {
    forall n: nat, j: nat | n < 9 && j < |line|
      ensures !OccursAt(line, WORDS[n], j)
    {
      if j + |WORDS[n]| <= |line| {
        assert line[j..j + |WORDS[n]|][0] == line[j];
      }
    }
  }

  /** Replacing a word without digits keeps every digit of the line and
      adds those of the replacement. */
  lemma {:induction false} ReplaceKeepsDigits(s: string, pat: string, rep: string)
    requires pat != [] && Day1Part1.Digits(pat) == []
    ensures multiset(Day1Part1.Digits(s)) <= multiset(Day1Part1.Digits(Replace(s, pat, rep)))
    decreases |s|
  {
    if |s| < |pat| {
    } else if s[..|pat|] == pat {
      var rest := s[|pat|..];
      var after := Replace(rest, pat, rep);
      assert s == pat + rest;
      assert Replace(s, pat, rep) == rep + after;
      ReplaceKeepsDigits(rest, pat, rep);
      KeepDigitsAtMatch(pat, rest, rep, after);
    } else {
      var t := s[1..];
      var after := Replace(t, pat, rep);
      assert s == [s[0]] + t;
      assert Replace(s, pat, rep) == [s[0]] + after;
      ReplaceKeepsDigits(t, pat, rep);
      KeepDigitsPastChar(s[0], t, after);
    }
  }

  /** The case of `ReplaceKeepsDigits` where the word occurs first. */
  lemma KeepDigitsAtMatch(pat: string, rest: string, rep: string, after: string)
    requires Day1Part1.Digits(pat) == []
    requires multiset(Day1Part1.Digits(rest)) <= multiset(Day1Part1.Digits(after))
    ensures multiset(Day1Part1.Digits(pat + rest)) <= multiset(Day1Part1.Digits(rep + after))
  {
    Day1Part1.DigitsConcat(pat, rest);
    Day1Part1.DigitsConcat(rep, after);
    assert Day1Part1.Digits(pat + rest) == Day1Part1.Digits(rest);
  }

  /** The case of `ReplaceKeepsDigits` where the first character is kept. */
  lemma KeepDigitsPastChar(c: char, t: string, after: string)
    requires multiset(Day1Part1.Digits(t)) <= multiset(Day1Part1.Digits(after))
    ensures multiset(Day1Part1.Digits([c] + t)) <= multiset(Day1Part1.Digits([c] + after))
  {
    Day1Part1.DigitsConcat([c], t);
    Day1Part1.DigitsConcat([c], after);
  }

  /** The rewriting keeps every literal digit of the line. */
  lemma {:induction false} CookKeepsDigits(line: string, n: nat)
    requires n <= 9
    ensures multiset(Day1Part1.Digits(line)) <= multiset(Day1Part1.Digits(CookUpTo(line, n)))
  {
    if n > 0 {
      CookKeepsDigits(line, n - 1);
      MarksShape(n - 1);
      ReplaceKeepsDigits(CookUpTo(line, n - 1), WORDS[n - 1], MARKS[n - 1]);
    }
  }

  /** Every line rewritten, in order. */
  function CookAll(lines: seq<string>): (cooked: seq<string>)
    ensures |cooked| == |lines| && forall i :: 0 <= i < |lines| ==> cooked[i] == Cook(lines[i])
  {
    seq(|lines|, i requires 0 <= i < |lines| => Cook(lines[i]))
  }

  /** `traverse_lines`: the same `i32` summing loop as in part 1, over the
      rewritten lines; the values summed are this part's line values.
      `None` on overflow. */
  method TraverseLines(lines: seq<string>) returns (r: Option<int>)
    ensures var vs := Day1Part1.Values(CookAll(lines));
      |vs| == |lines| && (forall i :: 0 <= i < |lines| ==> vs[i] == JoinFirstLast(lines[i])) &&
      (r.Some? <==> RunningSumsFit(vs)) && (r.Some? ==> r.value == Sum(vs))
  {
    r := Day1Part1.TraverseLines(CookAll(lines));
  }

  /** One rewriting step that cannot apply, the word lacking a character
      of the text. */
  lemma CookSkip(line: string, n: nat, x: string, k: nat)
    requires 1 <= n <= 9 && CookUpTo(line, n - 1) == x
    requires k < |WORDS[n - 1]| && WORDS[n - 1][k] !in x
    ensures CookUpTo(line, n) == x
  {
    ReplaceWithoutChar(x, WORDS[n - 1], MARKS[n - 1], k);
  }

  /** One rewriting step with a known outcome. */
  lemma CookHit(line: string, n: nat, x: string, y: string)
    requires 1 <= n <= 9 && CookUpTo(line, n - 1) == x
    requires Replace(x, WORDS[n - 1], MARKS[n - 1]) == y
    ensures CookUpTo(line, n) == y
  {
  }

  /** The calibration value is read off the rewritten line: ten times its
      first digit plus its last digit. */
  lemma CookedValue(line: string, c: string, i: nat, j: nat)
    requires Cook(line) == c
    requires Day1Part1.FirstDigitAt(c, i) && Day1Part1.LastDigitAt(c, j)
    ensures JoinFirstLast(line) == 10 * DigitValue(c[i]) + DigitValue(c[j])
  {
    Day1Part1.JoinFirstLastSpec(c, i, j);
  }


  /** `"two1nine"` is rewritten to `"t2o1n9e"`. */
  lemma CookExample0(line: string)
    requires line == "two1nine"
    ensures Cook(line) == "t2o1n9e"
  {
    Example0Step1(line);
    Example0Step2(line);
    Example0Step3(line);
    Example0Step4(line);
    Example0Step5(line);
    Example0Step6(line);
    Example0Step7(line);
    Example0Step8(line);
    Example0Step9(line);
  }

  /** The unit test of `join_first_last` on `"two1nine"`: 29. */
  lemma Example0Value(line: string)
    requires line == "two1nine"
    ensures JoinFirstLast(line) == 29
  {
    CookExample0(line);
    CookedValue(line, "t2o1n9e", 1, 5);
  }

  lemma Example0Word1TailTail()
    ensures Replace("1nine", "one", "o1e") == "1nine"
  {
    var s0 := "1nine";
    var s1 := "one";
    var s2 := "o1e";
    ReplaceWithoutChar(s0, s1, s2, 0);
  }

  lemma Example0Word1Tail()
    ensures Replace("o1nine", "one", "o1e") == "o1nine"
  {
    var s0 := "o1nine";
    var s1 := "one";
    var s2 := "o1e";
    var s3 := "1nine";
    assert ['o'] + s3 == s0;
    Example0Word1TailTail();
    assert Replace(s3, s1, s2) == s3;
    ReplaceSkip('o', s3, s1, s2, 1);
    assert Replace(s0, s1, s2) == s0;
  }

  lemma Example0Word1()
    ensures Replace("two1nine", WORDS[0], MARKS[0]) == "two1nine"
  {
    var s0 := "two1nine";
    var s1 := "one";
    var s2 := "o1e";
    var s3 := "o1nine";
    var s4 := "tw";
    assert s4 + s3 == s0;
    Example0Word1Tail();
    assert Replace(s3, s1, s2) == s3;
    ReplaceSkipChunk(s4, s3, s1, s2);
    assert Replace(s0, s1, s2) == s0;
    assert WORDS[0] == s1 && MARKS[0] == s2;
  }

  lemma Example0Word2Tail()
    ensures Replace("1nine", "two", "t2o") == "1nine"
  {
    var s0 := "1nine";
    var s1 := "two";
    var s2 := "t2o";
    ReplaceWithoutChar(s0, s1, s2, 0);
  }

  lemma Example0Word2()
    ensures Replace("two1nine", WORDS[1], MARKS[1]) == "t2o1nine"
  {
    var s0 := "two1nine";
    var s1 := "two";
    var s2 := "t2o";
    var s3 := "1nine";
    var s4 := "t2o1nine";
    assert s0[3..] == s3;
    assert s2 + s3 == s4;
    Example0Word2Tail();
    assert Replace(s3, s1, s2) == s3;
    ReplaceHit(s0, s1, s2);
    assert Replace(s0, s1, s2) == s4;
    assert WORDS[1] == s1 && MARKS[1] == s2;
  }

  lemma Example0Word9Tail()
    ensures Replace("nine", "nine", "n9e") == "n9e"
  {
    var s0 := "nine";
    var s1 := "n9e";
    var s2 := "";
    assert s0[4..] == s2;
    assert s1 + s2 == s1;
    ReplaceHit(s0, s0, s1);
    assert Replace(s2, s0, s1) == s2;
    assert Replace(s0, s0, s1) == s1;
  }

  lemma Example0Word9()
    ensures Replace("t2o1nine", WORDS[8], MARKS[8]) == "t2o1n9e"
  {
    var s0 := "t2o1nine";
    var s1 := "nine";
    var s2 := "n9e";
    var s3 := "t2o1";
    var s4 := "t2o1n9e";
    assert s3 + s1 == s0;
    assert s3 + s2 == s4;
    Example0Word9Tail();
    assert Replace(s1, s1, s2) == s2;
    ReplaceSkipChunk(s3, s1, s1, s2);
    assert Replace(s0, s1, s2) == s4;
    assert WORDS[8] == s1 && MARKS[8] == s2;
  }

  lemma Example0Step1(line: string)
    requires CookUpTo(line, 0) == "two1nine"
    ensures CookUpTo(line, 1) == "two1nine"
  {
    Example0Word1();
    CookHit(line, 1, "two1nine", "two1nine");
  }

  lemma Example0Step2(line: string)
    requires CookUpTo(line, 1) == "two1nine"
    ensures CookUpTo(line, 2) == "t2o1nine"
  {
    Example0Word2();
    CookHit(line, 2, "two1nine", "t2o1nine");
  }

  lemma Example0Step3(line: string)
    requires CookUpTo(line, 2) == "t2o1nine"
    ensures CookUpTo(line, 3) == "t2o1nine"
  {
    CookSkip(line, 3, "t2o1nine", 1);
  }

  lemma Example0Step4(line: string)
    requires CookUpTo(line, 3) == "t2o1nine"
    ensures CookUpTo(line, 4) == "t2o1nine"
  {
    CookSkip(line, 4, "t2o1nine", 0);
  }

  lemma Example0Step5(line: string)
    requires CookUpTo(line, 4) == "t2o1nine"
    ensures CookUpTo(line, 5) == "t2o1nine"
  {
    CookSkip(line, 5, "t2o1nine", 0);
  }

  lemma Example0Step6(line: string)
    requires CookUpTo(line, 5) == "t2o1nine"
    ensures CookUpTo(line, 6) == "t2o1nine"
  {
    CookSkip(line, 6, "t2o1nine", 0);
  }

  lemma Example0Step7(line: string)
    requires CookUpTo(line, 6) == "t2o1nine"
    ensures CookUpTo(line, 7) == "t2o1nine"
  {
    CookSkip(line, 7, "t2o1nine", 0);
  }

  lemma Example0Step8(line: string)
    requires CookUpTo(line, 7) == "t2o1nine"
    ensures CookUpTo(line, 8) == "t2o1nine"
  {
    CookSkip(line, 8, "t2o1nine", 2);
  }

  lemma Example0Step9(line: string)
    requires CookUpTo(line, 8) == "t2o1nine"
    ensures CookUpTo(line, 9) == "t2o1n9e"
  {
    Example0Word9();
    CookHit(line, 9, "t2o1nine", "t2o1n9e");
  }

  /** `"eightwothree"` is rewritten to `"e8t2ot3e"`. */
  lemma CookExample1(line: string)
    requires line == "eightwothree"
    ensures Cook(line) == "e8t2ot3e"
  {
    Example1Step1(line);
    Example1Step2(line);
    Example1Step3(line);
    Example1Step4(line);
    Example1Step5(line);
    Example1Step6(line);
    Example1Step7(line);
    Example1Step8(line);
    Example1Step9(line);
  }

  /** The unit test of `join_first_last` on `"eightwothree"`: 83. */
  lemma Example1Value(line: string)
    requires line == "eightwothree"
    ensures JoinFirstLast(line) == 83
  {
    CookExample1(line);
    CookedValue(line, "e8t2ot3e", 1, 6);
  }

  lemma Example1Word2TailTail()
    ensures Replace("hree", "two", "t2o") == "hree"
  {
    var s0 := "hree";
    var s1 := "two";
    var s2 := "t2o";
    ReplaceWithoutChar(s0, s1, s2, 0);
  }

  lemma Example1Word2Tail()
    ensures Replace("three", "two", "t2o") == "three"
  {
    var s0 := "three";
    var s1 := "two";
    var s2 := "t2o";
    var s3 := "hree";
    assert ['t'] + s3 == s0;
    Example1Word2TailTail();
    assert Replace(s3, s1, s2) == s3;
    ReplaceSkip('t', s3, s1, s2, 1);
    assert Replace(s0, s1, s2) == s0;
  }

  lemma Example1Word2()
    ensures Replace("eightwothree", WORDS[1], MARKS[1]) == "eight2othree"
  {
    var s0 := "eightwothree";
    var s1 := "two";
    var s2 := "t2o";
    var s3 := "three";
    var s4 := "eigh";
    var s5 := "twothree";
    var s6 := "t2othree";
    var s7 := "eight2othree";
    assert s4 + s5 == s0;
    assert s5[3..] == s3;
    assert s2 + s3 == s6;
    assert s4 + s6 == s7;
    Example1Word2Tail();
    assert Replace(s3, s1, s2) == s3;
    ReplaceSkipChunk(s4, s5, s1, s2);
    ReplaceHit(s5, s1, s2);
    assert Replace(s5, s1, s2) == s6;
    assert Replace(s0, s1, s2) == s7;
    assert WORDS[1] == s1 && MARKS[1] == s2;
  }

  lemma Example1Word3TailTail()
    ensures Replace("three", "three", "t3e") == "t3e"
  {
    var s0 := "three";
    var s1 := "t3e";
    var s2 := "";
    assert s0[5..] == s2;
    assert s1 + s2 == s1;
    ReplaceHit(s0, s0, s1);
    assert Replace(s2, s0, s1) == s2;
    assert Replace(s0, s0, s1) == s1;
  }

  lemma Example1Word3Tail()
    ensures Replace("2othree", "three", "t3e") == "2ot3e"
  {
    var s0 := "2othree";
    var s1 := "three";
    var s2 := "t3e";
    var s3 := "2o";
    var s4 := "2ot3e";
    assert s3 + s1 == s0;
    assert s3 + s2 == s4;
    Example1Word3TailTail();
    assert Replace(s1, s1, s2) == s2;
    ReplaceSkipChunk(s3, s1, s1, s2);
    assert Replace(s0, s1, s2) == s4;
  }

  lemma Example1Word3()
    ensures Replace("eight2othree", WORDS[2], MARKS[2]) == "eight2ot3e"
  {
    var s0 := "eight2othree";
    var s1 := "three";
    var s2 := "t3e";
    var s3 := "2othree";
    var s4 := "2ot3e";
    var s5 := "eigh";
    var s6 := "t2othree";
    var s7 := "t2ot3e";
    var s8 := "eight2ot3e";
    assert s5 + s6 == s0;
    assert ['t'] + s3 == s6;
    assert ['t'] + s4 == s7;
    assert s5 + s7 == s8;
    Example1Word3Tail();
    assert Replace(s3, s1, s2) == s4;
    ReplaceSkipChunk(s5, s6, s1, s2);
    ReplaceSkip('t', s3, s1, s2, 1);
    assert Replace(s6, s1, s2) == s7;
    assert Replace(s0, s1, s2) == s8;
    assert WORDS[2] == s1 && MARKS[2] == s2;
  }

  lemma Example1Word8Tail()
    ensures Replace("2ot3e", "eight", "e8t") == "2ot3e"
  {
    var s0 := "2ot3e";
    var s1 := "eight";
    var s2 := "e8t";
    var s3 := "2ot3";
    var s4 := "e";
    assert s3 + s4 == s0;
    ReplaceSkipChunk(s3, s4, s1, s2);
    assert Replace(s4, s1, s2) == s4;
    assert Replace(s0, s1, s2) == s0;
  }

  lemma Example1Word8()
    ensures Replace("eight2ot3e", WORDS[7], MARKS[7]) == "e8t2ot3e"
  {
    var s0 := "eight2ot3e";
    var s1 := "eight";
    var s2 := "e8t";
    var s3 := "2ot3e";
    var s4 := "e8t2ot3e";
    assert s0[5..] == s3;
    assert s2 + s3 == s4;
    Example1Word8Tail();
    assert Replace(s3, s1, s2) == s3;
    ReplaceHit(s0, s1, s2);
    assert Replace(s0, s1, s2) == s4;
    assert WORDS[7] == s1 && MARKS[7] == s2;
  }

  lemma Example1Step1(line: string)
    requires CookUpTo(line, 0) == "eightwothree"
    ensures CookUpTo(line, 1) == "eightwothree"
  {
    CookSkip(line, 1, "eightwothree", 1);
  }

  lemma Example1Step2(line: string)
    requires CookUpTo(line, 1) == "eightwothree"
    ensures CookUpTo(line, 2) == "eight2othree"
  {
    Example1Word2();
    CookHit(line, 2, "eightwothree", "eight2othree");
  }

  lemma Example1Step3(line: string)
    requires CookUpTo(line, 2) == "eight2othree"
    ensures CookUpTo(line, 3) == "eight2ot3e"
  {
    Example1Word3();
    CookHit(line, 3, "eight2othree", "eight2ot3e");
  }

  lemma Example1Step4(line: string)
    requires CookUpTo(line, 3) == "eight2ot3e"
    ensures CookUpTo(line, 4) == "eight2ot3e"
  {
    CookSkip(line, 4, "eight2ot3e", 0);
  }

  lemma Example1Step5(line: string)
    requires CookUpTo(line, 4) == "eight2ot3e"
    ensures CookUpTo(line, 5) == "eight2ot3e"
  {
    CookSkip(line, 5, "eight2ot3e", 0);
  }

  lemma Example1Step6(line: string)
    requires CookUpTo(line, 5) == "eight2ot3e"
    ensures CookUpTo(line, 6) == "eight2ot3e"
  {
    CookSkip(line, 6, "eight2ot3e", 0);
  }

  lemma Example1Step7(line: string)
    requires CookUpTo(line, 6) == "eight2ot3e"
    ensures CookUpTo(line, 7) == "eight2ot3e"
  {
    CookSkip(line, 7, "eight2ot3e", 0);
  }

  lemma Example1Step8(line: string)
    requires CookUpTo(line, 7) == "eight2ot3e"
    ensures CookUpTo(line, 8) == "e8t2ot3e"
  {
    Example1Word8();
    CookHit(line, 8, "eight2ot3e", "e8t2ot3e");
  }

  lemma Example1Step9(line: string)
    requires CookUpTo(line, 8) == "e8t2ot3e"
    ensures CookUpTo(line, 9) == "e8t2ot3e"
  {
    CookSkip(line, 9, "e8t2ot3e", 0);
  }

  /** `"abcone2threexyz"` is rewritten to `"abco1e2t3exyz"`. */
  lemma CookExample2(line: string)
    requires line == "abcone2threexyz"
    ensures Cook(line) == "abco1e2t3exyz"
  {
    Example2Step1(line);
    Example2Step2(line);
    Example2Step3(line);
    Example2Step4(line);
    Example2Step5(line);
    Example2Step6(line);
    Example2Step7(line);
    Example2Step8(line);
    Example2Step9(line);
  }

  /** The unit test of `join_first_last` on `"abcone2threexyz"`: 13. */
  lemma Example2Value(line: string)
    requires line == "abcone2threexyz"
    ensures JoinFirstLast(line) == 13
  {
    CookExample2(line);
    CookedValue(line, "abco1e2t3exyz", 4, 8);
  }

  lemma Example2Word1TailTail()
    ensures Replace("2threexyz", "one", "o1e") == "2threexyz"
  {
    var s0 := "2threexyz";
    var s1 := "one";
    var s2 := "o1e";
    ReplaceWithoutChar(s0, s1, s2, 0);
  }

  lemma Example2Word1Tail()
    ensures Replace("one2threexyz", "one", "o1e") == "o1e2threexyz"
  {
    var s0 := "one2threexyz";
    var s1 := "one";
    var s2 := "o1e";
    var s3 := "2threexyz";
    var s4 := "o1e2threexyz";
    assert s0[3..] == s3;
    assert s2 + s3 == s4;
    Example2Word1TailTail();
    assert Replace(s3, s1, s2) == s3;
    ReplaceHit(s0, s1, s2);
    assert Replace(s0, s1, s2) == s4;
  }

  lemma Example2Word1()
    ensures Replace("abcone2threexyz", WORDS[0], MARKS[0]) == "abco1e2threexyz"
  {
    var s0 := "abcone2threexyz";
    var s1 := "one";
    var s2 := "o1e";
    var s3 := "one2threexyz";
    var s4 := "o1e2threexyz";
    var s5 := "abc";
    var s6 := "abco1e2threexyz";
    assert s5 + s3 == s0;
    assert s5 + s4 == s6;
    Example2Word1Tail();
    assert Replace(s3, s1, s2) == s4;
    ReplaceSkipChunk(s5, s3, s1, s2);
    assert Replace(s0, s1, s2) == s6;
    assert WORDS[0] == s1 && MARKS[0] == s2;
  }

  lemma Example2Word3TailTail()
    ensures Replace("xyz", "three", "t3e") == "xyz"
  {
    var s0 := "xyz";
    var s1 := "three";
    var s2 := "t3e";
    ReplaceWithoutChar(s0, s1, s2, 0);
  }

  lemma Example2Word3Tail()
    ensures Replace("threexyz", "three", "t3e") == "t3exyz"
  {
    var s0 := "threexyz";
    var s1 := "three";
    var s2 := "t3e";
    var s3 := "xyz";
    var s4 := "t3exyz";
    assert s0[5..] == s3;
    assert s2 + s3 == s4;
    Example2Word3TailTail();
    assert Replace(s3, s1, s2) == s3;
    ReplaceHit(s0, s1, s2);
    assert Replace(s0, s1, s2) == s4;
  }

  lemma Example2Word3()
    ensures Replace("abco1e2threexyz", WORDS[2], MARKS[2]) == "abco1e2t3exyz"
  {
    var s0 := "abco1e2threexyz";
    var s1 := "three";
    var s2 := "t3e";
    var s3 := "threexyz";
    var s4 := "t3exyz";
    var s5 := "abco1e2";
    var s6 := "abco1e2t3exyz";
    assert s5 + s3 == s0;
    assert s5 + s4 == s6;
    Example2Word3Tail();
    assert Replace(s3, s1, s2) == s4;
    ReplaceSkipChunk(s5, s3, s1, s2);
    assert Replace(s0, s1, s2) == s6;
    assert WORDS[2] == s1 && MARKS[2] == s2;
  }

  lemma Example2Step1(line: string)
    requires CookUpTo(line, 0) == "abcone2threexyz"
    ensures CookUpTo(line, 1) == "abco1e2threexyz"
  {
    Example2Word1();
    CookHit(line, 1, "abcone2threexyz", "abco1e2threexyz");
  }

  lemma Example2Step2(line: string)
    requires CookUpTo(line, 1) == "abco1e2threexyz"
    ensures CookUpTo(line, 2) == "abco1e2threexyz"
  {
    CookSkip(line, 2, "abco1e2threexyz", 1);
  }

  lemma Example2Step3(line: string)
    requires CookUpTo(line, 2) == "abco1e2threexyz"
    ensures CookUpTo(line, 3) == "abco1e2t3exyz"
  {
    Example2Word3();
    CookHit(line, 3, "abco1e2threexyz", "abco1e2t3exyz");
  }

  lemma Example2Step4(line: string)
    requires CookUpTo(line, 3) == "abco1e2t3exyz"
    ensures CookUpTo(line, 4) == "abco1e2t3exyz"
  {
    CookSkip(line, 4, "abco1e2t3exyz", 0);
  }

  lemma Example2Step5(line: string)
    requires CookUpTo(line, 4) == "abco1e2t3exyz"
    ensures CookUpTo(line, 5) == "abco1e2t3exyz"
  {
    CookSkip(line, 5, "abco1e2t3exyz", 0);
  }

  lemma Example2Step6(line: string)
    requires CookUpTo(line, 5) == "abco1e2t3exyz"
    ensures CookUpTo(line, 6) == "abco1e2t3exyz"
  {
    CookSkip(line, 6, "abco1e2t3exyz", 0);
  }

  lemma Example2Step7(line: string)
    requires CookUpTo(line, 6) == "abco1e2t3exyz"
    ensures CookUpTo(line, 7) == "abco1e2t3exyz"
  {
    CookSkip(line, 7, "abco1e2t3exyz", 0);
  }

  lemma Example2Step8(line: string)
    requires CookUpTo(line, 7) == "abco1e2t3exyz"
    ensures CookUpTo(line, 8) == "abco1e2t3exyz"
  {
    CookSkip(line, 8, "abco1e2t3exyz", 1);
  }

  lemma Example2Step9(line: string)
    requires CookUpTo(line, 8) == "abco1e2t3exyz"
    ensures CookUpTo(line, 9) == "abco1e2t3exyz"
  {
    CookSkip(line, 9, "abco1e2t3exyz", 0);
  }

  /** `"xtwone3four"` is rewritten to `"xt2o1e3f4r"`. */
  lemma CookExample3(line: string)
    requires line == "xtwone3four"
    ensures Cook(line) == "xt2o1e3f4r"
  {
    Example3Step1(line);
    Example3Step2(line);
    Example3Step3(line);
    Example3Step4(line);
    Example3Step5(line);
    Example3Step6(line);
    Example3Step7(line);
    Example3Step8(line);
    Example3Step9(line);
  }

  /** The unit test of `join_first_last` on `"xtwone3four"`: 24. */
  lemma Example3Value(line: string)
    requires line == "xtwone3four"
    ensures JoinFirstLast(line) == 24
  {
    CookExample3(line);
    CookedValue(line, "xt2o1e3f4r", 2, 8);
  }

  lemma Example3Word1TailTailTail()
    ensures Replace("ur", "one", "o1e") == "ur"
  {
    var s0 := "ur";
    var s1 := "one";
    var s2 := "o1e";
    ReplaceWithoutChar(s0, s1, s2, 0);
  }

  lemma Example3Word1TailTail()
    ensures Replace("our", "one", "o1e") == "our"
  {
    var s0 := "our";
    var s1 := "one";
    var s2 := "o1e";
    var s3 := "ur";
    assert ['o'] + s3 == s0;
    Example3Word1TailTailTail();
    assert Replace(s3, s1, s2) == s3;
    ReplaceSkip('o', s3, s1, s2, 1);
    assert Replace(s0, s1, s2) == s0;
  }

  lemma Example3Word1Tail()
    ensures Replace("3four", "one", "o1e") == "3four"
  {
    var s0 := "3four";
    var s1 := "one";
    var s2 := "o1e";
    var s3 := "our";
    var s4 := "3f";
    assert s4 + s3 == s0;
    Example3Word1TailTail();
    assert Replace(s3, s1, s2) == s3;
    ReplaceSkipChunk(s4, s3, s1, s2);
    assert Replace(s0, s1, s2) == s0;
  }

  lemma Example3Word1()
    ensures Replace("xtwone3four", WORDS[0], MARKS[0]) == "xtwo1e3four"
  {
    var s0 := "xtwone3four";
    var s1 := "one";
    var s2 := "o1e";
    var s3 := "3four";
    var s4 := "xtw";
    var s5 := "one3four";
    var s6 := "o1e3four";
    var s7 := "xtwo1e3four";
    assert s4 + s5 == s0;
    assert s5[3..] == s3;
    assert s2 + s3 == s6;
    assert s4 + s6 == s7;
    Example3Word1Tail();
    assert Replace(s3, s1, s2) == s3;
    ReplaceSkipChunk(s4, s5, s1, s2);
    ReplaceHit(s5, s1, s2);
    assert Replace(s5, s1, s2) == s6;
    assert Replace(s0, s1, s2) == s7;
    assert WORDS[0] == s1 && MARKS[0] == s2;
  }

  lemma Example3Word2TailTail()
    ensures Replace("1e3four", "two", "t2o") == "1e3four"
  {
    var s0 := "1e3four";
    var s1 := "two";
    var s2 := "t2o";
    ReplaceWithoutChar(s0, s1, s2, 0);
  }

  lemma Example3Word2Tail()
    ensures Replace("two1e3four", "two", "t2o") == "t2o1e3four"
  {
    var s0 := "two1e3four";
    var s1 := "two";
    var s2 := "t2o";
    var s3 := "1e3four";
    var s4 := "t2o1e3four";
    assert s0[3..] == s3;
    assert s2 + s3 == s4;
    Example3Word2TailTail();
    assert Replace(s3, s1, s2) == s3;
    ReplaceHit(s0, s1, s2);
    assert Replace(s0, s1, s2) == s4;
  }

  lemma Example3Word2()
    ensures Replace("xtwo1e3four", WORDS[1], MARKS[1]) == "xt2o1e3four"
  {
    var s0 := "xtwo1e3four";
    var s1 := "two";
    var s2 := "t2o";
    var s3 := "two1e3four";
    var s4 := "t2o1e3four";
    var s5 := "x";
    var s6 := "xt2o1e3four";
    assert s5 + s3 == s0;
    assert s5 + s4 == s6;
    Example3Word2Tail();
    assert Replace(s3, s1, s2) == s4;
    ReplaceSkipChunk(s5, s3, s1, s2);
    assert Replace(s0, s1, s2) == s6;
    assert WORDS[1] == s1 && MARKS[1] == s2;
  }

  lemma Example3Word4Tail()
    ensures Replace("four", "four", "f4r") == "f4r"
  {
    var s0 := "four";
    var s1 := "f4r";
    var s2 := "";
    assert s0[4..] == s2;
    assert s1 + s2 == s1;
    ReplaceHit(s0, s0, s1);
    assert Replace(s2, s0, s1) == s2;
    assert Replace(s0, s0, s1) == s1;
  }

  lemma Example3Word4()
    ensures Replace("xt2o1e3four", WORDS[3], MARKS[3]) == "xt2o1e3f4r"
  {
    var s0 := "xt2o1e3four";
    var s1 := "four";
    var s2 := "f4r";
    var s3 := "xt2o1e3";
    var s4 := "xt2o1e3f4r";
    assert s3 + s1 == s0;
    assert s3 + s2 == s4;
    Example3Word4Tail();
    assert Replace(s1, s1, s2) == s2;
    ReplaceSkipChunk(s3, s1, s1, s2);
    assert Replace(s0, s1, s2) == s4;
    assert WORDS[3] == s1 && MARKS[3] == s2;
  }

  lemma Example3Step1(line: string)
    requires CookUpTo(line, 0) == "xtwone3four"
    ensures CookUpTo(line, 1) == "xtwo1e3four"
  {
    Example3Word1();
    CookHit(line, 1, "xtwone3four", "xtwo1e3four");
  }

  lemma Example3Step2(line: string)
    requires CookUpTo(line, 1) == "xtwo1e3four"
    ensures CookUpTo(line, 2) == "xt2o1e3four"
  {
    Example3Word2();
    CookHit(line, 2, "xtwo1e3four", "xt2o1e3four");
  }

  lemma Example3Step3(line: string)
    requires CookUpTo(line, 2) == "xt2o1e3four"
    ensures CookUpTo(line, 3) == "xt2o1e3four"
  {
    CookSkip(line, 3, "xt2o1e3four", 1);
  }

  lemma Example3Step4(line: string)
    requires CookUpTo(line, 3) == "xt2o1e3four"
    ensures CookUpTo(line, 4) == "xt2o1e3f4r"
  {
    Example3Word4();
    CookHit(line, 4, "xt2o1e3four", "xt2o1e3f4r");
  }

  lemma Example3Step5(line: string)
    requires CookUpTo(line, 4) == "xt2o1e3f4r"
    ensures CookUpTo(line, 5) == "xt2o1e3f4r"
  {
    CookSkip(line, 5, "xt2o1e3f4r", 1);
  }

  lemma Example3Step6(line: string)
    requires CookUpTo(line, 5) == "xt2o1e3f4r"
    ensures CookUpTo(line, 6) == "xt2o1e3f4r"
  {
    CookSkip(line, 6, "xt2o1e3f4r", 0);
  }

  lemma Example3Step7(line: string)
    requires CookUpTo(line, 6) == "xt2o1e3f4r"
    ensures CookUpTo(line, 7) == "xt2o1e3f4r"
  {
    CookSkip(line, 7, "xt2o1e3f4r", 0);
  }

  lemma Example3Step8(line: string)
    requires CookUpTo(line, 7) == "xt2o1e3f4r"
    ensures CookUpTo(line, 8) == "xt2o1e3f4r"
  {
    CookSkip(line, 8, "xt2o1e3f4r", 1);
  }

  lemma Example3Step9(line: string)
    requires CookUpTo(line, 8) == "xt2o1e3f4r"
    ensures CookUpTo(line, 9) == "xt2o1e3f4r"
  {
    CookSkip(line, 9, "xt2o1e3f4r", 0);
  }

  /** `"4nineeightseven2"` is rewritten to `"4n9ee8ts7n2"`. */
  lemma CookExample4(line: string)
    requires line == "4nineeightseven2"
    ensures Cook(line) == "4n9ee8ts7n2"
  {
    Example4Step1(line);
    Example4Step2(line);
    Example4Step3(line);
    Example4Step4(line);
    Example4Step5(line);
    Example4Step6(line);
    Example4Step7(line);
    Example4Step8(line);
    Example4Step9(line);
  }

  /** The unit test of `join_first_last` on `"4nineeightseven2"`: 42. */
  lemma Example4Value(line: string)
    requires line == "4nineeightseven2"
    ensures JoinFirstLast(line) == 42
  {
    CookExample4(line);
    CookedValue(line, "4n9ee8ts7n2", 0, 10);
  }

  lemma Example4Word7TailTail()
    ensures Replace("2", "seven", "s7n") == "2"
  {
    var s0 := "2";
    var s1 := "seven";
    var s2 := "s7n";
    ReplaceWithoutChar(s0, s1, s2, 0);
  }

  lemma Example4Word7Tail()
    ensures Replace("seven2", "seven", "s7n") == "s7n2"
  {
    var s0 := "seven2";
    var s1 := "seven";
    var s2 := "s7n";
    var s3 := "2";
    var s4 := "s7n2";
    assert s0[5..] == s3;
    assert s2 + s3 == s4;
    Example4Word7TailTail();
    assert Replace(s3, s1, s2) == s3;
    ReplaceHit(s0, s1, s2);
    assert Replace(s0, s1, s2) == s4;
  }

  lemma Example4Word7()
    ensures Replace("4nineeightseven2", WORDS[6], MARKS[6]) == "4nineeights7n2"
  {
    var s0 := "4nineeightseven2";
    var s1 := "seven";
    var s2 := "s7n";
    var s3 := "seven2";
    var s4 := "s7n2";
    var s5 := "4nineeight";
    var s6 := "4nineeights7n2";
    assert s5 + s3 == s0;
    assert s5 + s4 == s6;
    Example4Word7Tail();
    assert Replace(s3, s1, s2) == s4;
    ReplaceSkipChunk(s5, s3, s1, s2);
    assert Replace(s0, s1, s2) == s6;
    assert WORDS[6] == s1 && MARKS[6] == s2;
  }

  lemma Example4Word8TailTail()
    ensures Replace("s7n2", "eight", "e8t") == "s7n2"
  {
    var s0 := "s7n2";
    var s1 := "eight";
    var s2 := "e8t";
    ReplaceWithoutChar(s0, s1, s2, 0);
  }

  lemma Example4Word8Tail()
    ensures Replace("eights7n2", "eight", "e8t") == "e8ts7n2"
  {
    var s0 := "eights7n2";
    var s1 := "eight";
    var s2 := "e8t";
    var s3 := "s7n2";
    var s4 := "e8ts7n2";
    assert s0[5..] == s3;
    assert s2 + s3 == s4;
    Example4Word8TailTail();
    assert Replace(s3, s1, s2) == s3;
    ReplaceHit(s0, s1, s2);
    assert Replace(s0, s1, s2) == s4;
  }

  lemma Example4Word8()
    ensures Replace("4nineeights7n2", WORDS[7], MARKS[7]) == "4ninee8ts7n2"
  {
    var s0 := "4nineeights7n2";
    var s1 := "eight";
    var s2 := "e8t";
    var s3 := "eights7n2";
    var s4 := "e8ts7n2";
    var s5 := "4nin";
    var s6 := "eeights7n2";
    var s7 := "ee8ts7n2";
    var s8 := "4ninee8ts7n2";
    assert s5 + s6 == s0;
    assert ['e'] + s3 == s6;
    assert ['e'] + s4 == s7;
    assert s5 + s7 == s8;
    Example4Word8Tail();
    assert Replace(s3, s1, s2) == s4;
    ReplaceSkipChunk(s5, s6, s1, s2);
    ReplaceSkip('e', s3, s1, s2, 1);
    assert Replace(s6, s1, s2) == s7;
    assert Replace(s0, s1, s2) == s8;
    assert WORDS[7] == s1 && MARKS[7] == s2;
  }

  lemma Example4Word9TailTail()
    ensures Replace("e8ts7n2", "nine", "n9e") == "e8ts7n2"
  {
    var s0 := "e8ts7n2";
    var s1 := "nine";
    var s2 := "n9e";
    var s3 := "e8ts7";
    var s4 := "n2";
    assert s3 + s4 == s0;
    ReplaceSkipChunk(s3, s4, s1, s2);
    assert Replace(s4, s1, s2) == s4;
    assert Replace(s0, s1, s2) == s0;
  }

  lemma Example4Word9Tail()
    ensures Replace("ninee8ts7n2", "nine", "n9e") == "n9ee8ts7n2"
  {
    var s0 := "ninee8ts7n2";
    var s1 := "nine";
    var s2 := "n9e";
    var s3 := "e8ts7n2";
    var s4 := "n9ee8ts7n2";
    assert s0[4..] == s3;
    assert s2 + s3 == s4;
    Example4Word9TailTail();
    assert Replace(s3, s1, s2) == s3;
    ReplaceHit(s0, s1, s2);
    assert Replace(s0, s1, s2) == s4;
  }

  lemma Example4Word9()
    ensures Replace("4ninee8ts7n2", WORDS[8], MARKS[8]) == "4n9ee8ts7n2"
  {
    var s0 := "4ninee8ts7n2";
    var s1 := "nine";
    var s2 := "n9e";
    var s3 := "ninee8ts7n2";
    var s4 := "n9ee8ts7n2";
    var s5 := "4";
    var s6 := "4n9ee8ts7n2";
    assert s5 + s3 == s0;
    assert s5 + s4 == s6;
    Example4Word9Tail();
    assert Replace(s3, s1, s2) == s4;
    ReplaceSkipChunk(s5, s3, s1, s2);
    assert Replace(s0, s1, s2) == s6;
    assert WORDS[8] == s1 && MARKS[8] == s2;
  }

  lemma Example4Step1(line: string)
    requires CookUpTo(line, 0) == "4nineeightseven2"
    ensures CookUpTo(line, 1) == "4nineeightseven2"
  {
    CookSkip(line, 1, "4nineeightseven2", 0);
  }

  lemma Example4Step2(line: string)
    requires CookUpTo(line, 1) == "4nineeightseven2"
    ensures CookUpTo(line, 2) == "4nineeightseven2"
  {
    CookSkip(line, 2, "4nineeightseven2", 1);
  }

  lemma Example4Step3(line: string)
    requires CookUpTo(line, 2) == "4nineeightseven2"
    ensures CookUpTo(line, 3) == "4nineeightseven2"
  {
    CookSkip(line, 3, "4nineeightseven2", 2);
  }

  lemma Example4Step4(line: string)
    requires CookUpTo(line, 3) == "4nineeightseven2"
    ensures CookUpTo(line, 4) == "4nineeightseven2"
  {
    CookSkip(line, 4, "4nineeightseven2", 0);
  }

  lemma Example4Step5(line: string)
    requires CookUpTo(line, 4) == "4nineeightseven2"
    ensures CookUpTo(line, 5) == "4nineeightseven2"
  {
    CookSkip(line, 5, "4nineeightseven2", 0);
  }

  lemma Example4Step6(line: string)
    requires CookUpTo(line, 5) == "4nineeightseven2"
    ensures CookUpTo(line, 6) == "4nineeightseven2"
  {
    CookSkip(line, 6, "4nineeightseven2", 2);
  }

  lemma Example4Step7(line: string)
    requires CookUpTo(line, 6) == "4nineeightseven2"
    ensures CookUpTo(line, 7) == "4nineeights7n2"
  {
    Example4Word7();
    CookHit(line, 7, "4nineeightseven2", "4nineeights7n2");
  }

  lemma Example4Step8(line: string)
    requires CookUpTo(line, 7) == "4nineeights7n2"
    ensures CookUpTo(line, 8) == "4ninee8ts7n2"
  {
    Example4Word8();
    CookHit(line, 8, "4nineeights7n2", "4ninee8ts7n2");
  }

  lemma Example4Step9(line: string)
    requires CookUpTo(line, 8) == "4ninee8ts7n2"
    ensures CookUpTo(line, 9) == "4n9ee8ts7n2"
  {
    Example4Word9();
    CookHit(line, 9, "4ninee8ts7n2", "4n9ee8ts7n2");
  }

  /** `"zoneight234"` is rewritten to `"zo1e8t234"`. */
  lemma CookExample5(line: string)
    requires line == "zoneight234"
    ensures Cook(line) == "zo1e8t234"
  {
    Example5Step1(line);
    Example5Step2(line);
    Example5Step3(line);
    Example5Step4(line);
    Example5Step5(line);
    Example5Step6(line);
    Example5Step7(line);
    Example5Step8(line);
    Example5Step9(line);
  }

  /** The unit test of `join_first_last` on `"zoneight234"`: 14. */
  lemma Example5Value(line: string)
    requires line == "zoneight234"
    ensures JoinFirstLast(line) == 14
  {
    CookExample5(line);
    CookedValue(line, "zo1e8t234", 2, 8);
  }

  lemma Example5Word1TailTail()
    ensures Replace("ight234", "one", "o1e") == "ight234"
  {
    var s0 := "ight234";
    var s1 := "one";
    var s2 := "o1e";
    ReplaceWithoutChar(s0, s1, s2, 0);
  }

  lemma Example5Word1Tail()
    ensures Replace("oneight234", "one", "o1e") == "o1eight234"
  {
    var s0 := "oneight234";
    var s1 := "one";
    var s2 := "o1e";
    var s3 := "ight234";
    var s4 := "o1eight234";
    assert s0[3..] == s3;
    assert s2 + s3 == s4;
    Example5Word1TailTail();
    assert Replace(s3, s1, s2) == s3;
    ReplaceHit(s0, s1, s2);
    assert Replace(s0, s1, s2) == s4;
  }

  lemma Example5Word1()
    ensures Replace("zoneight234", WORDS[0], MARKS[0]) == "zo1eight234"
  {
    var s0 := "zoneight234";
    var s1 := "one";
    var s2 := "o1e";
    var s3 := "oneight234";
    var s4 := "o1eight234";
    var s5 := "z";
    var s6 := "zo1eight234";
    assert s5 + s3 == s0;
    assert s5 + s4 == s6;
    Example5Word1Tail();
    assert Replace(s3, s1, s2) == s4;
    ReplaceSkipChunk(s5, s3, s1, s2);
    assert Replace(s0, s1, s2) == s6;
    assert WORDS[0] == s1 && MARKS[0] == s2;
  }

  lemma Example5Word8TailTail()
    ensures Replace("234", "eight", "e8t") == "234"
  {
    var s0 := "234";
    var s1 := "eight";
    var s2 := "e8t";
    ReplaceWithoutChar(s0, s1, s2, 0);
  }

  lemma Example5Word8Tail()
    ensures Replace("eight234", "eight", "e8t") == "e8t234"
  {
    var s0 := "eight234";
    var s1 := "eight";
    var s2 := "e8t";
    var s3 := "234";
    var s4 := "e8t234";
    assert s0[5..] == s3;
    assert s2 + s3 == s4;
    Example5Word8TailTail();
    assert Replace(s3, s1, s2) == s3;
    ReplaceHit(s0, s1, s2);
    assert Replace(s0, s1, s2) == s4;
  }

  lemma Example5Word8()
    ensures Replace("zo1eight234", WORDS[7], MARKS[7]) == "zo1e8t234"
  {
    var s0 := "zo1eight234";
    var s1 := "eight";
    var s2 := "e8t";
    var s3 := "eight234";
    var s4 := "e8t234";
    var s5 := "zo1";
    var s6 := "zo1e8t234";
    assert s5 + s3 == s0;
    assert s5 + s4 == s6;
    Example5Word8Tail();
    assert Replace(s3, s1, s2) == s4;
    ReplaceSkipChunk(s5, s3, s1, s2);
    assert Replace(s0, s1, s2) == s6;
    assert WORDS[7] == s1 && MARKS[7] == s2;
  }

  lemma Example5Step1(line: string)
    requires CookUpTo(line, 0) == "zoneight234"
    ensures CookUpTo(line, 1) == "zo1eight234"
  {
    Example5Word1();
    CookHit(line, 1, "zoneight234", "zo1eight234");
  }

  lemma Example5Step2(line: string)
    requires CookUpTo(line, 1) == "zo1eight234"
    ensures CookUpTo(line, 2) == "zo1eight234"
  {
    CookSkip(line, 2, "zo1eight234", 1);
  }

  lemma Example5Step3(line: string)
    requires CookUpTo(line, 2) == "zo1eight234"
    ensures CookUpTo(line, 3) == "zo1eight234"
  {
    CookSkip(line, 3, "zo1eight234", 2);
  }

  lemma Example5Step4(line: string)
    requires CookUpTo(line, 3) == "zo1eight234"
    ensures CookUpTo(line, 4) == "zo1eight234"
  {
    CookSkip(line, 4, "zo1eight234", 0);
  }

  lemma Example5Step5(line: string)
    requires CookUpTo(line, 4) == "zo1eight234"
    ensures CookUpTo(line, 5) == "zo1eight234"
  {
    CookSkip(line, 5, "zo1eight234", 0);
  }

  lemma Example5Step6(line: string)
    requires CookUpTo(line, 5) == "zo1eight234"
    ensures CookUpTo(line, 6) == "zo1eight234"
  {
    CookSkip(line, 6, "zo1eight234", 0);
  }

  lemma Example5Step7(line: string)
    requires CookUpTo(line, 6) == "zo1eight234"
    ensures CookUpTo(line, 7) == "zo1eight234"
  {
    CookSkip(line, 7, "zo1eight234", 0);
  }

  lemma Example5Step8(line: string)
    requires CookUpTo(line, 7) == "zo1eight234"
    ensures CookUpTo(line, 8) == "zo1e8t234"
  {
    Example5Word8();
    CookHit(line, 8, "zo1eight234", "zo1e8t234");
  }

  lemma Example5Step9(line: string)
    requires CookUpTo(line, 8) == "zo1e8t234"
    ensures CookUpTo(line, 9) == "zo1e8t234"
  {
    CookSkip(line, 9, "zo1e8t234", 0);
  }

  /** `"7pqrstsixteen"` is rewritten to `"7pqrsts6xteen"`. */
  lemma CookExample6(line: string)
    requires line == "7pqrstsixteen"
    ensures Cook(line) == "7pqrsts6xteen"
  {
    Example6Step1(line);
    Example6Step2(line);
    Example6Step3(line);
    Example6Step4(line);
    Example6Step5(line);
    Example6Step6(line);
    Example6Step7(line);
    Example6Step8(line);
    Example6Step9(line);
  }

  /** The unit test of `join_first_last` on `"7pqrstsixteen"`: 76. */
  lemma Example6Value(line: string)
    requires line == "7pqrstsixteen"
    ensures JoinFirstLast(line) == 76
  {
    CookExample6(line);
    CookedValue(line, "7pqrsts6xteen", 0, 7);
  }

  lemma Example6Word6TailTailTail()
    ensures Replace("teen", "six", "s6x") == "teen"
  {
    var s0 := "teen";
    var s1 := "six";
    var s2 := "s6x";
    ReplaceWithoutChar(s0, s1, s2, 0);
  }

  lemma Example6Word6TailTail()
    ensures Replace("sixteen", "six", "s6x") == "s6xteen"
  {
    var s0 := "sixteen";
    var s1 := "six";
    var s2 := "s6x";
    var s3 := "teen";
    var s4 := "s6xteen";
    assert s0[3..] == s3;
    assert s2 + s3 == s4;
    Example6Word6TailTailTail();
    assert Replace(s3, s1, s2) == s3;
    ReplaceHit(s0, s1, s2);
    assert Replace(s0, s1, s2) == s4;
  }

  lemma Example6Word6Tail()
    ensures Replace("tsixteen", "six", "s6x") == "ts6xteen"
  {
    var s0 := "tsixteen";
    var s1 := "six";
    var s2 := "s6x";
    var s3 := "sixteen";
    var s4 := "s6xteen";
    var s5 := "t";
    var s6 := "ts6xteen";
    assert s5 + s3 == s0;
    assert s5 + s4 == s6;
    Example6Word6TailTail();
    assert Replace(s3, s1, s2) == s4;
    ReplaceSkipChunk(s5, s3, s1, s2);
    assert Replace(s0, s1, s2) == s6;
  }

  lemma Example6Word6()
    ensures Replace("7pqrstsixteen", WORDS[5], MARKS[5]) == "7pqrsts6xteen"
  {
    var s0 := "7pqrstsixteen";
    var s1 := "six";
    var s2 := "s6x";
    var s3 := "tsixteen";
    var s4 := "ts6xteen";
    var s5 := "7pqr";
    var s6 := "stsixteen";
    var s7 := "sts6xteen";
    var s8 := "7pqrsts6xteen";
    assert s5 + s6 == s0;
    assert ['s'] + s3 == s6;
    assert ['s'] + s4 == s7;
    assert s5 + s7 == s8;
    Example6Word6Tail();
    assert Replace(s3, s1, s2) == s4;
    ReplaceSkipChunk(s5, s6, s1, s2);
    ReplaceSkip('s', s3, s1, s2, 1);
    assert Replace(s6, s1, s2) == s7;
    assert Replace(s0, s1, s2) == s8;
    assert WORDS[5] == s1 && MARKS[5] == s2;
  }

  lemma Example6Step1(line: string)
    requires CookUpTo(line, 0) == "7pqrstsixteen"
    ensures CookUpTo(line, 1) == "7pqrstsixteen"
  {
    CookSkip(line, 1, "7pqrstsixteen", 0);
  }

  lemma Example6Step2(line: string)
    requires CookUpTo(line, 1) == "7pqrstsixteen"
    ensures CookUpTo(line, 2) == "7pqrstsixteen"
  {
    CookSkip(line, 2, "7pqrstsixteen", 1);
  }

  lemma Example6Step3(line: string)
    requires CookUpTo(line, 2) == "7pqrstsixteen"
    ensures CookUpTo(line, 3) == "7pqrstsixteen"
  {
    CookSkip(line, 3, "7pqrstsixteen", 1);
  }

  lemma Example6Step4(line: string)
    requires CookUpTo(line, 3) == "7pqrstsixteen"
    ensures CookUpTo(line, 4) == "7pqrstsixteen"
  {
    CookSkip(line, 4, "7pqrstsixteen", 0);
  }

  lemma Example6Step5(line: string)
    requires CookUpTo(line, 4) == "7pqrstsixteen"
    ensures CookUpTo(line, 5) == "7pqrstsixteen"
  {
    CookSkip(line, 5, "7pqrstsixteen", 0);
  }

  lemma Example6Step6(line: string)
    requires CookUpTo(line, 5) == "7pqrstsixteen"
    ensures CookUpTo(line, 6) == "7pqrsts6xteen"
  {
    Example6Word6();
    CookHit(line, 6, "7pqrstsixteen", "7pqrsts6xteen");
  }

  lemma Example6Step7(line: string)
    requires CookUpTo(line, 6) == "7pqrsts6xteen"
    ensures CookUpTo(line, 7) == "7pqrsts6xteen"
  {
    CookSkip(line, 7, "7pqrsts6xteen", 2);
  }

  lemma Example6Step8(line: string)
    requires CookUpTo(line, 7) == "7pqrsts6xteen"
    ensures CookUpTo(line, 8) == "7pqrsts6xteen"
  {
    CookSkip(line, 8, "7pqrsts6xteen", 1);
  }

  lemma Example6Step9(line: string)
    requires CookUpTo(line, 8) == "7pqrsts6xteen"
    ensures CookUpTo(line, 9) == "7pqrsts6xteen"
  {
    CookSkip(line, 9, "7pqrsts6xteen", 1);
  }
}
