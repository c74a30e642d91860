/** Day 9, part 1: extrapolating each history by repeated differences
    (day9p1.rs). */
module Day9 {
  import opened Common
  import opened Text

  /** The differences of neighbouring values: one fewer than the values,
      and none for an empty row. */
  function Diffs(s: seq<int>): (d: seq<int>)
    ensures |d| == if s == [] then 0 else |s| - 1
  {
    if |s| <= 1 then [] else seq(|s| - 1, i requires 0 <= i < |s| - 1 => s[i + 1] - s[i])
  }

  predicate AllZero(s: seq<int>)
  {
    forall i :: 0 <= i < |s| ==> s[i] == 0
  }

  /** `differences`. */
  method Differences(input: seq<int>) returns (output: seq<int>)
    ensures |output| == if input == [] then 0 else |input| - 1
    ensures forall i :: 0 <= i < |output| ==> output[i] == input[i + 1] - input[i]
  {
    output := [];
    var i := 1;
    while i < |input|
      invariant input == [] ==> i == 1
      invariant input != [] ==> 1 <= i <= |input|
      invariant |output| == i - 1
      invariant forall k :: 0 <= k < |output| ==> output[k] == input[k + 1] - input[k]
    {
      output := output + [input[i] - input[i - 1]];
      i := i + 1;
    }
  }

  lemma DiffsIsDifferences(s: seq<int>, d: seq<int>)
    requires |d| == if s == [] then 0 else |s| - 1
    requires forall i :: 0 <= i < |d| ==> d[i] == s[i + 1] - s[i]
    ensures d == Diffs(s)
  {
  }

  /** The next value of a non-empty history: its last value plus the next
      value of its differences, until the differences are all zero. */
  function NextValue(h: seq<int>): (v: int)
    requires |h| > 0
    ensures |h| == 1 ==> v == h[0]
    decreases |h|
  {
    var d := Diffs(h);
    if AllZero(d) then h[|h| - 1] else h[|h| - 1] + NextValue(d)
  }

  /** `predict`: the history's last value, plus the last value of each row of
      differences that is not all zero; an empty history has no last value
      (`None`, the `unwrap` panic). */
  method Predict(history: seq<int>) returns (r: Option<int>)
    ensures history == [] ==> r == None
    ensures history != [] ==> r == Some(NextValue(history))
  {
    if |history| == 0 {
      return None;
    }
    var predictor := history[|history| - 1];
    var diff := Differences(history);
    DiffsIsDifferences(history, diff);
    while !AllZeroCheck(diff)
      invariant |diff| < |history|
      invariant AllZero(diff) ==> predictor == NextValue(history)
      invariant !AllZero(diff) ==> diff != [] && predictor + NextValue(diff) == NextValue(history)
      decreases |diff|
    {
      predictor := predictor + diff[|diff| - 1];
      var next := Differences(diff);
      DiffsIsDifferences(diff, next);
      diff := next;
    }
    return Some(predictor);
  }

  /** `iter().all(|e| *e == 0)`. */
  function AllZeroCheck(s: seq<int>): (b: bool)
    ensures b <==> AllZero(s)
  {
    if s == [] then true else s[0] == 0 && AllZeroCheck(s[1..])
  }

  /** A constant history continues with the same constant. */
  lemma ConstantHistory(h: seq<int>, c: int)
    requires |h| > 0 && forall i :: 0 <= i < |h| ==> h[i] == c
    ensures NextValue(h) == c
  {
    assert AllZero(Diffs(h));
  }

  /** An arithmetic progression continues with one more step. */
  lemma ArithmeticProgression(h: seq<int>, a: int, step: int)
    requires |h| >= 2 && forall i :: 0 <= i < |h| ==> h[i] == a + i * step
    ensures NextValue(h) == h[|h| - 1] + step
  {
    var d := Diffs(h);
    forall i | 0 <= i < |d| ensures d[i] == step {
      assert h[i + 1] - h[i] == (a + (i + 1) * step) - (a + i * step) == step;
    }
    assert d[0] == step;
    if !AllZero(d) {
      ConstantHistory(d, step);
    }
  }

  /** Adding the prediction to the history extends each row of differences
      by that row's own prediction: the rows stay consistent. */
  lemma {:induction false} NextValueExtends(h: seq<int>)
    requires |h| > 0 && !AllZero(Diffs(h))
    ensures Diffs(h + [NextValue(h)]) == Diffs(h) + [NextValue(Diffs(h))]
  {
    var d := Diffs(h);
    assert |h| >= 2;
    var v := NextValue(h);
    assert v == h[|h| - 1] + NextValue(d);
    DiffsSnoc(h, v);
  }

  /** Appending a value appends its step from the last value. */
  lemma DiffsSnoc(h: seq<int>, x: int)
    requires |h| > 0
    ensures Diffs(h + [x]) == Diffs(h) + [x - h[|h| - 1]]
  {
    var h' := h + [x];
    var d := Diffs(h);
    forall i | 0 <= i < |d| ensures Diffs(h')[i] == d[i] {
      assert h'[i] == h[i] && h'[i + 1] == h[i + 1];
    }
  }

  /** `parse_lines`: each line's whitespace-separated `i32`s; a token that
      is not one is the `unwrap` panic, reported with its line. */
  function ParseLines(input: string): (r: Result<seq<seq<int>>, nat>)
    ensures r.Ok? ==> |r.value| == |Lines(input)|
    ensures r.Err? ==> r.error < |Lines(input)|
  {
    ParseRows(Lines(input), 0)
  }

  function ParseRow(tokens: seq<string>): Option<seq<int>>
  {
    if tokens == [] then Some([])
    else
      match ParseI32(tokens[0])
      case None => None
      case Some(n) =>
        match ParseRow(tokens[1..])
        case None => None
        case Some(ns) => Some([n] + ns)
  }

  function ParseRows(lines: seq<string>, first: nat): (r: Result<seq<seq<int>>, nat>)
    ensures r.Ok? ==> |r.value| == |lines|
    ensures r.Err? ==> first <= r.error < first + |lines|
  {
    if lines == [] then Ok([])
    else
      match ParseRow(SplitWhitespace(lines[0]))
      case None => Err(first)
      case Some(row) =>
        match ParseRows(lines[1..], first + 1)
        case Err(e) => Err(e)
        case Ok(rows) => Ok([row] + rows)
  }

  /** A row is read exactly when every token is an `i32`, and then holds
      their values in order. */
  lemma {:induction false} ParseRowSpec(tokens: seq<string>)
    ensures var r := ParseRow(tokens);
      (r.Some? <==> forall k :: 0 <= k < |tokens| ==> ParseI32(tokens[k]).Some?) &&
      (r.Some? ==> |r.value| == |tokens| && forall k :: 0 <= k < |tokens| ==> ParseI32(tokens[k]) == Some(r.value[k]))
  {
    if tokens != [] {
      ParseRowSpec(tokens[1..]);
      assert forall k :: 1 <= k < |tokens| ==> tokens[k] == tokens[1..][k - 1];
    }
  }

  /** The histories are the lines' rows, line by line. */
  lemma {:induction false} ParseRowsOk(lines: seq<string>, first: nat)
    ensures var r := ParseRows(lines, first);
      r.Ok? ==> forall i :: 0 <= i < |lines| ==> ParseRow(SplitWhitespace(lines[i])) == Some(r.value[i])
  {
    if lines != [] {
      ParseRowsOk(lines[1..], first + 1);
      assert forall i :: 1 <= i < |lines| ==> lines[1..][i - 1] == lines[i];
    }
  }

  /** Parsing fails at the first line holding a token that is not an
      `i32`. */
  lemma {:induction false} ParseRowsErr(lines: seq<string>, first: nat)
    ensures var r := ParseRows(lines, first);
      r.Err? ==>
        (ParseRow(SplitWhitespace(lines[r.error - first])).None? &&
         forall i :: 0 <= i < r.error - first ==> ParseRow(SplitWhitespace(lines[i])).Some?)
  {
    if lines != [] && ParseRow(SplitWhitespace(lines[0])).Some? {
      var tail := lines[1..];
      ParseRowsErr(tail, first + 1);
      var r' := ParseRows(tail, first + 1);
      if r'.Err? {
        assert ParseRows(lines, first) == Err(r'.error);
        var j := r'.error - first;
        assert lines[j] == tail[j - 1];
        forall i | 1 <= i < j
          ensures ParseRow(SplitWhitespace(lines[i])).Some?
        {
          assert lines[i] == tail[i - 1];
        }
      }
    }
  }

  // ---------------------------------------------------------------------
  // The unit tests

  lemma ExampleDifferences()
    ensures Diffs([0, 3, 6, 9, 12, 15]) == [3, 3, 3, 3, 3]
    ensures Diffs([1, 3, 6, 10, 15, 21]) == [2, 3, 4, 5, 6]
    ensures Diffs([10, 13, 16, 21, 30, 45]) == [3, 3, 5, 9, 15]
  {
  }

  lemma ExamplePrediction()
    ensures NextValue([10, 13, 16, 21, 30, 45]) == 68
  {
    assert Diffs([10, 13, 16, 21, 30, 45]) == [3, 3, 5, 9, 15];
    assert Diffs([3, 3, 5, 9, 15]) == [0, 2, 4, 6];
    assert Diffs([0, 2, 4, 6]) == [2, 2, 2];
    assert Diffs([2, 2, 2]) == [0, 0];
    assert !AllZero([0, 2, 4, 6]) by { assert [0, 2, 4, 6][1] != 0; }
    assert !AllZero([2, 2, 2]) by { assert [2, 2, 2][0] != 0; }
  }
}
