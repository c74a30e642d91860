/** Day 6: a boat race of `time` milliseconds; holding the button for `d`
    of them gives speed `d` for the remaining `time - d`, so a distance of
    `d * (time - d)`. `RaceRecord::get_winning_distances` lists, for every
    hold time `d` in `0 ..= time`, the distances that beat the record. Part
    1 computes them in `u32`, part 2 in `u64`; `limit` is the width. */
module Day6Races {
  import opened Common
  import opened Text

  /** `split_whitespace().skip(1)`: the tokens after the label. */
  function AfterLabel(line: string): (ts: seq<string>)
    ensures |ts| == if SplitWhitespace(line) == [] then 0 else |SplitWhitespace(line)| - 1
  {
    var tokens := SplitWhitespace(line);
    if tokens == [] then [] else tokens[1..]
  }

  /** A label followed by numbers in decimal: one line, and the numbers are
      the tokens after the label. */
  lemma LabelledLine(tag: string, numbers: seq<string>)
    requires tag != [] && NoWhitespace(tag)
    requires forall i :: 0 <= i < |numbers| ==> numbers[i] != [] && AllDigits(numbers[i])
    ensures NoLineBreak(Unwords([tag] + numbers)) && Unwords([tag] + numbers) != []
    ensures AfterLabel(Unwords([tag] + numbers)) == numbers
  {
    var words := [tag] + numbers;
    assert forall k :: 0 <= k < |words| ==> words[k] != [] && NoWhitespace(words[k]);
    UnwordsLine(words);
    SplitUnwords(words);
    assert words[1..] == numbers;
  }

  /** The two labels are single tokens. */
  lemma LabelsAreWords()
    ensures NoWhitespace("Time:") && NoWhitespace("Distance:")
  {
    var t, d := "Time:", "Distance:";
    assert forall i :: 0 <= i < |t| ==> '!' <= t[i] <= '~';
    assert forall i :: 0 <= i < |d| ==> '!' <= d[i] <= '~';
  }

  /** The distance travelled after holding the button for `d` of `t` ms. */
  function Travel(t: nat, d: nat): (x: nat)
    requires d <= t
    ensures x == d * (t - d)
  {
    d * (t - d)
  }

  /** Every distance, in order of increasing hold time. */
  function Distances(t: nat): (xs: seq<nat>)
    ensures |xs| == t + 1
    ensures forall d :: 0 <= d <= t ==> xs[d] == Travel(t, d)
  {
    seq(t + 1, d requires 0 <= d <= t => Travel(t, d))
  }

  /** Some hold time gives a distance that does not fit the width: the
      multiplication panics. */
  predicate Overflows(t: nat, limit: nat)
  {
    exists d :: 0 <= d <= t && Travel(t, d) >= limit
  }

  /** The distances beating `record`, in their original order (the
      `filter`). */
  function Above(xs: seq<nat>, record: nat): (ys: seq<nat>)
    ensures |ys| <= |xs|
  {
    if xs == [] then []
    else if xs[0] > record then [xs[0]] + Above(xs[1..], record)
    else Above(xs[1..], record)
  }

  /** What `get_winning_distances` returns, or `None` for the panic. */
  function Winning(t: nat, record: nat, limit: nat): Option<seq<nat>>
  {
    if Overflows(t, limit) then None else Some(Above(Distances(t), record))
  }

  /** `RaceRecord::get_winning_distances`: push the distance of every hold
      time, then keep those beating the record. */
  method WinningDistances(time: nat, record: nat, limit: nat) returns (r: Option<seq<nat>>)
    ensures r == Winning(time, record, limit)
    ensures r.Some? ==> forall k :: 0 <= k < |r.value| ==> record < r.value[k] < limit
  {
    var all: seq<nat> := [];
    var d := 0;
    while d <= time
      invariant d <= time + 1
      invariant all == Distances(time)[..d]
      invariant forall e :: 0 <= e < d ==> Travel(time, e) < limit
    {
      var x := d * (time - d);
      if x >= limit {
        assert Travel(time, d) >= limit;
        return None;
      }
      all := all + [x];
      d := d + 1;
    }
    assert all == Distances(time);
    AboveMembers(all, record);
    var kept := Above(all, record);
    forall k | 0 <= k < |kept|
      ensures record < kept[k] < limit
    {
      assert kept[k] in all;
      var e :| 0 <= e < |all| && all[e] == kept[k];
    }
    return Some(Above(all, record));
  }

  /** The filter keeps exactly the distances above the record. */
  lemma {:induction false} AboveMembers(xs: seq<nat>, record: nat)
    ensures forall x :: x in Above(xs, record) <==> x in xs && x > record
  {
    if xs != [] {
      AboveMembers(xs[1..], record);
      assert xs == [xs[0]] + xs[1..];
    }
  }

  /** Hold times `d` and `t - d` give the same distance. */
  lemma DistancesSymmetric(t: nat, d: nat)
    requires d <= t
    ensures Distances(t)[d] == Distances(t)[t - d]
  {
  }

  function Reverse(xs: seq<nat>): (ys: seq<nat>)
    ensures |ys| == |xs|
    ensures forall k :: 0 <= k < |xs| ==> ys[k] == xs[|xs| - 1 - k]
  {
    if xs == [] then [] else Reverse(xs[1..]) + [xs[0]]
  }

  /** The distance list reads the same backwards. */
  lemma DistancesPalindrome(t: nat)
    ensures Reverse(Distances(t)) == Distances(t)
  {
    var xs := Distances(t);
    forall k | 0 <= k < |xs|
      ensures Reverse(xs)[k] == xs[k]
    {
      DistancesSymmetric(t, k);
    }
  }

  lemma {:induction false} AboveAppend(xs: seq<nat>, x: nat, record: nat)
    ensures Above(xs + [x], record) == Above(xs, record) + Above([x], record)
  {
    if xs != [] {
      assert (xs + [x])[1..] == xs[1..] + [x];
      AboveAppend(xs[1..], x, record);
    }
  }

  lemma {:induction false} AboveConcat(xs: seq<nat>, ys: seq<nat>, record: nat)
    ensures Above(xs + ys, record) == Above(xs, record) + Above(ys, record)
  {
    if xs != [] {
      assert (xs + ys)[1..] == xs[1..] + ys;
      AboveConcat(xs[1..], ys, record);
    } else {
      assert xs + ys == ys;
    }
  }

  /** Filtering commutes with reversal. */
  lemma {:induction false} AboveReverse(xs: seq<nat>, record: nat)
    ensures Above(Reverse(xs), record) == Reverse(Above(xs, record))
  {
    if xs != [] {
      AboveReverse(xs[1..], record);
      AboveAppend(Reverse(xs[1..]), xs[0], record);
      var tail := Above(xs[1..], record);
      if xs[0] > record {
        assert Reverse([xs[0]] + tail) == Reverse(tail) + [xs[0]] by {
          assert ([xs[0]] + tail)[1..] == tail;
        }
      }
    }
  }

  /** The winning distances are symmetric too: the kept list is a
      palindrome. */
  lemma WinningPalindrome(t: nat, record: nat)
    ensures Reverse(Above(Distances(t), record)) == Above(Distances(t), record)
  {
    DistancesPalindrome(t);
    AboveReverse(Distances(t), record);
  }

  /** Holding for no time or for the whole race goes nowhere, so at most
      `t - 1` hold times win, and none when `t` is zero. */
  lemma WinningBound(t: nat, record: nat)
    ensures |Above(Distances(t), record)| <= if t == 0 then 0 else t - 1
  {
    var xs := Distances(t);
    if t > 0 {
      var inner := xs[1..t];
      assert xs == [xs[0]] + inner + [xs[t]];
      AboveAppend([xs[0]] + inner, xs[t], record);
      assert ([xs[0]] + inner)[1..] == inner;
    }
  }

  lemma TravelAtMost(t: nat, d: nat)
    requires d <= t
    ensures Travel(t, d) <= t * t
  {
    assert d * (t - d) <= t * (t - d) <= t * t by {
      MulLe(d, t, t - d);
      MulLe(t - d, t, t);
    }
  }

  lemma MulLe(a: nat, b: nat, c: nat)
    requires a <= b
    ensures a * c <= b * c
  {
  }

  /** A race whose square fits the width cannot overflow. */
  lemma NoOverflowBelowSquare(t: nat, limit: nat)
    requires t * t < limit
    ensures !Overflows(t, limit)
  {
    forall d | 0 <= d <= t
      ensures Travel(t, d) < limit
    {
      TravelAtMost(t, d);
    }
  }

  /** The unit test's race of 7 ms: distances 0, 6, 10, 12, 12, 10, 6, 0;
      with record 9 the four middle ones win. */
  lemma ExampleDistances()
    ensures Distances(7) == [0, 6, 10, 12, 12, 10, 6, 0]
    ensures Above(Distances(7), 9) == [10, 12, 12, 10]
  {
    assert Distances(7) == [0, 6, 10, 12, 12, 10, 6, 0];
  }

  /** Nothing at or below the record survives the filter. */
  lemma {:induction false} AboveNone(xs: seq<nat>, record: nat)
    requires forall k :: 0 <= k < |xs| ==> xs[k] <= record
    ensures Above(xs, record) == []
  {
    if xs != [] {
      AboveNone(xs[1..], record);
    }
  }

  /** Everything above the record survives it. */
  lemma {:induction false} AboveAll(xs: seq<nat>, record: nat)
    requires forall k :: 0 <= k < |xs| ==> xs[k] > record
    ensures Above(xs, record) == xs
  {
    if xs != [] {
      AboveAll(xs[1..], record);
    }
  }

  /** Losing hold times, then winning ones, then losing ones: the filter
      keeps the middle block. */
  lemma WinningBlock(before: seq<nat>, wins: seq<nat>, after: seq<nat>, record: nat)
    requires forall k :: 0 <= k < |before| ==> before[k] <= record
    requires forall k :: 0 <= k < |wins| ==> wins[k] > record
    requires forall k :: 0 <= k < |after| ==> after[k] <= record
    ensures Above(before + wins + after, record) == wins
  {
    AboveNone(before, record);
    AboveAll(wins, record);
    AboveNone(after, record);
    AboveConcat(before, wins, record);
    AboveConcat(before + wins, after, record);
  }

  /** The other two races of the example: 8 and 9 winning hold times. */
  lemma ExampleKept15()
    ensures Above(Distances(15), 40) == [44, 50, 54, 56, 56, 54, 50, 44]
  {
    var a, b, c := [0, 14, 26, 36], [44, 50, 54, 56, 56, 54, 50, 44], [36, 26, 14, 0];
    var xs := a + b + c;
    forall d | 0 <= d <= 15
      ensures Distances(15)[d] == xs[d]
    {
    }
    assert Distances(15) == xs;
    WinningBlock(a, b, c, 40);
  }

  lemma ExampleKept30()
    ensures Above(Distances(30), 200) == [209, 216, 221, 224, 225, 224, 221, 216, 209]
  {
    var a, b, c := [0, 29, 56, 81, 104, 125, 144, 161, 176, 189, 200], [209, 216, 221, 224, 225, 224, 221, 216, 209],
      [200, 189, 176, 161, 144, 125, 104, 81, 56, 29, 0];
    var xs := a + b + c;
    forall d | 0 <= d <= 30
      ensures Distances(30)[d] == xs[d]
    {
    }
    assert Distances(30) == xs;
    WinningBlock(a, b, c, 200);
  }
}
