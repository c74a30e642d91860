/** Day 2, part 1: a game is possible with a bag of 12 red, 13 green and 14
    blue cubes when no roll shows more cubes of a colour than that; the
    answer is the sum of the ids of the possible games (day2p1.rs). */
module Day2Part1 {
  import opened Common
  import opened Text
  import opened Day2Cubes

  const RED_CUBES: int := 12
  const GREEN_CUBES: int := 13
  const BLUE_CUBES: int := 14

  /** A roll shows no more cubes of its colour than the bag holds; an
      unreadable roll or an unknown colour shows none. */
  predicate WithinBag(roll: Option<Roll>)
  {
    CountOf(roll, "red") <= RED_CUBES && CountOf(roll, "green") <= GREEN_CUBES && CountOf(roll, "blue") <= BLUE_CUBES
  }

  /** Every roll of the line fits the bag. */
  predicate Possible(line: string)
  {
    var ps := Parse(Rolls(line));
    forall k :: 0 <= k < |ps| ==> WithinBag(ps[k])
  }

  /** `is_line_valid`: the running maxima of the line, then the three
      comparisons against the bag; true exactly when every roll fits. */
  method IsLineValid(line: string) returns (valid: bool)
    ensures valid <==> Possible(line)
  {
    var m := ComputeMaxima(line);
    if m.red > RED_CUBES {
      valid := false;
    } else if m.green > GREEN_CUBES {
      valid := false;
    } else if m.blue > BLUE_CUBES {
      valid := false;
    } else {
      valid := true;
    }
    MaximaWithinBag(Parse(Rolls(line)));
  }

  /** Comparing the maxima against the bag is the same as comparing every
      roll against it. */
  lemma MaximaWithinBag(ps: seq<Option<Roll>>)
    ensures (MaximaOf(ps).red <= RED_CUBES && MaximaOf(ps).green <= GREEN_CUBES && MaximaOf(ps).blue <= BLUE_CUBES) <==>
      forall k :: 0 <= k < |ps| ==> WithinBag(ps[k])
  {
    MaximaSpec(ps, "red");
    MaximaSpec(ps, "green");
    MaximaSpec(ps, "blue");
  }

  /** Whether a game is possible does not depend on the order of its
      rolls. */
  lemma PossibleOrderFree(xs: seq<Option<Roll>>, ys: seq<Option<Roll>>)
    requires multiset(xs) == multiset(ys)
    ensures (forall k :: 0 <= k < |xs| ==> WithinBag(xs[k])) <==> (forall k :: 0 <= k < |ys| ==> WithinBag(ys[k]))
  {
    MaximaWithinBag(xs);
    MaximaWithinBag(ys);
    MaximaPermutation(xs, ys);
  }

  /** `parse_game_id`: the second whitespace-separated token as an `i32`. */
  function ParseGameId(s: string): (r: Option<int>)
    ensures r.Some? ==> I32_MIN <= r.value <= I32_MAX
    ensures |SplitWhitespace(s)| < 2 ==> r.None?
  {
    var tokens := SplitWhitespace(s);
    if |tokens| >= 2 && ParseI32(tokens[1]).Some? then Some(ParseI32(tokens[1]).value) else None
  }

  /** `"Game 3"` reads as 3: a word and an id in decimal give back the id. */
  lemma GameIdRoundTrip(word: string, n: nat)
    requires word != [] && NoWhitespace(word) && n <= I32_MAX
    ensures ParseGameId(Unwords([word, ToDecimal(n)])) == Some(n as int)
  {
    var d := ToDecimal(n);
    assert forall k :: 0 <= k < |d| ==> IsDigit(d[k]);
    SplitUnwords([word, d]);
    DecimalValueOfToDecimal(n);
  }

  /** What one line adds to the total: its id when it has a `:`, the text
      between the first and the second `:` is a possible game and the text
      before the first `:` holds an id; nothing otherwise. */
  function GameValue(line: string): int
  {
    var x := Split(line, ':');
    if |x| > 1 && Possible(x[1]) && ParseGameId(x[0]).Some? then ParseGameId(x[0]).value else 0
  }

  /** The values of the lines, in order. */
  function Values(lines: seq<string>): (vs: seq<int>)
    ensures |vs| == |lines|
  {
    seq(|lines|, i requires 0 <= i < |lines| => GameValue(lines[i]))
  }

  /** One more line adds its value at the end. */
  lemma ValuesSnoc(lines: seq<string>, i: nat)
    requires i < |lines|
    ensures Values(lines[..i + 1]) == Values(lines[..i]) + [GameValue(lines[i])]
  {
    var longer, front := Values(lines[..i + 1]), Values(lines[..i]);
    assert forall k :: 0 <= k < i ==> longer[k] == front[k];
    assert longer[i] == GameValue(lines[i]);
  }

  /** Running sums that overflow on the first lines overflow on all of them. */
  lemma ValuesOverflow(lines: seq<string>, n: nat)
    requires n <= |lines| && !RunningSumsFit(Values(lines[..n]))
    ensures !RunningSumsFit(Values(lines))
  {
    var all := Values(lines);
    assert Values(lines[..n]) == all[..n];
    assert all == all[..n] + all[n..];
    if RunningSumsFit(all) {
      RunningSumsPrefix(all[..n], all[n..]);
    }
  }

  /** The summing closure of `main`: every line (split at `'\n'`) adds its
      value to an `i32` sum; `None` when a running sum leaves the `i32`
      range (the overflow panic). */
  method SumOfPossibleGames(input: string) returns (r: Option<int>)
    ensures r.Some? <==> RunningSumsFit(Values(Split(input, '\n')))
    ensures r.Some? ==> r.value == Sum(Values(Split(input, '\n')))
  {
    r := SumLines(Split(input, '\n'));
  }

  /** The `for_each` over the lines. */
  method SumLines(lines: seq<string>) returns (r: Option<int>)
    ensures r.Some? <==> RunningSumsFit(Values(lines))
    ensures r.Some? ==> r.value == Sum(Values(lines))
  {
    ghost var vs: seq<int> := [];
    var sum := 0;
    assert lines[..0] == [];
    for i := 0 to |lines|
      invariant vs == Values(lines[..i])
      invariant RunningSumsFit(vs) && sum == Sum(vs)
    {
      var v := NextValue(lines, i);
      RunningSumsSnoc(vs, v);
      SumAppend(vs, v);
      if !FitsI32(sum + v) {
        ValuesOverflow(lines, i + 1);
        return None;
      }
      sum := sum + v;
      vs := vs + [v];
    }
    assert lines[..|lines|] == lines;
    return Some(sum);
  }

  /** The closure applied to line `i`: its value extends the values of the
      lines before it. */
  method NextValue(lines: seq<string>, i: nat) returns (v: int)
    requires i < |lines|
    ensures Values(lines[..i + 1]) == Values(lines[..i]) + [v]
  {
    v := LineValue(lines[i]);
    ValuesSnoc(lines, i);
  }

  /** The body of the closure for one line: the id it adds, if any. */
  method LineValue(line: string) returns (v: int)
    ensures v == GameValue(line)
  {
    v := 0;
    var x := Split(line, ':');
    if |x| > 1 {
      var valid := IsLineValid(x[1]);
      if valid {
        var id := ParseGameId(x[0]);
        if id.Some? {
          v := id.value;
        }
      }
    }
  }

  /** Games 1, 2 and 5 of the example are possible, games 3 and 4 are not. */
  lemma ExamplePossible(i: nat)
    requires i < 5
    ensures |EXAMPLE_GAMES| == 5
    ensures Possible(GameText(EXAMPLE_GAMES[i])) <==> i == 0 || i == 1 || i == 4
  {
    ExampleMaxima(i);
    MaximaWithinBag(Parse(Rolls(GameText(EXAMPLE_GAMES[i]))));
  }

  /** A game line as the puzzle writes it: `Game <id>:` followed by its
      draws. */
  function GameLine(id: nat, draws: seq<seq<(nat, string)>>): string
    requires |draws| >= 1 && forall i :: 0 <= i < |draws| ==> |draws[i]| >= 1
  {
    "Game " + ToDecimal(id) + ":" + GameText(draws)
  }

  /** Glued to the `Game <id>:` label, a roll no longer starts with its
      count: it is not read. */
  lemma GameLabelSkipsRoll(id: nat, roll: string)
    ensures ParseNumberAndColor("Game " + ToDecimal(id) + ":" + roll) == None
  {
    var rest := " " + ToDecimal(id) + ":" + roll;
    var s := "Game" + rest;
    assert "Game " + ToDecimal(id) + ":" + roll == s;
    assert NoWhitespace("Game");
    TokenLengthOfWord("Game", rest);
    assert s[..4] == "Game";
    assert SplitWhitespace(s)[0] == "Game";
    assert !IsDigit('G');
    assert ParseI32("Game") == None;
  }

  /** A whole game line reads as its game with the first roll unread. */
  lemma LabelledParse(id: nat, draws: seq<seq<(nat, string)>>)
    requires Writable(draws)
    ensures |Expected(draws)| >= 1
    ensures Parse(Rolls(GameLine(id, draws))) == [None] + Expected(draws)[1..]
  {
    var prefix := "Game " + ToDecimal(id) + ":";
    var text := GameText(draws);
    var d := ToDecimal(id);
    assert forall k :: 0 <= k < |d| ==> IsDigit(d[k]);
    assert ';' !in prefix && ',' !in prefix;
    RollsLabelled(prefix, text);
    ReadGameText(draws);
    var rs := Rolls(text);
    assert GameLine(id, draws) == prefix + text;
    GameLabelSkipsRoll(id, rs[0]);
    assert prefix + rs[0] == "Game " + ToDecimal(id) + ":" + rs[0];
  }

  /** `is_line_valid` given a whole game line, label included: the label
      spoils the first roll, which is skipped, and only the other rolls
      decide. When the first roll fits the bag anyway, the verdict is the
      same as for the text after `:`. */
  lemma LabelledGame(id: nat, draws: seq<seq<(nat, string)>>)
    requires Writable(draws)
    ensures |Expected(draws)| >= 1
    ensures Possible(GameLine(id, draws)) <==>
      forall k :: 1 <= k < |Expected(draws)| ==> WithinBag(Expected(draws)[k])
    ensures WithinBag(Expected(draws)[0]) ==> (Possible(GameLine(id, draws)) <==> Possible(GameText(draws)))
  {
    LabelledParse(id, draws);
    ReadGameText(draws);
    var es := Expected(draws);
    var ps := [None] + es[1..];
    assert forall k :: 1 <= k < |ps| ==> ps[k] == es[k];
    assert WithinBag(ps[0]);
  }

  /** The unit test as written: it hands whole `Game <id>: …` lines to
      `is_line_valid`, and games 1, 2 and 5 still come out possible and
      games 3 and 4 impossible, because each example's first roll fits the
      bag. */
  lemma ExampleTestLines(i: nat)
    requires i < 5
    ensures |EXAMPLE_GAMES| == 5 && Writable(EXAMPLE_GAMES[i])
    ensures Possible(GameLine(i + 1, EXAMPLE_GAMES[i])) <==> i == 0 || i == 1 || i == 4
  {
    var g := EXAMPLE_GAMES[i];
    ExamplePossible(i);
    ExampleMaxima(i);
    ExpectedHead(g);
    assert WithinBag(Expected(g)[0]);
    LabelledGame(i + 1, g);
  }
}
