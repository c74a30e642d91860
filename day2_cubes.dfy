/** Day 2: a game line lists draws separated by `;`, each draw lists rolls
    separated by `,`, and a roll is a count and a colour. Both parts scan
    every roll and keep the largest count seen per colour, starting from
    zero (the nested loops of `is_line_valid` in day2p1.rs and of
    `compute_power` in day2p2.rs), and both read a roll with
    `parse_number_and_color`. */
module Day2Cubes {
  import opened Common
  import opened Text

  /** A roll as `parse_number_and_color` returns it: count and colour. */
  type Roll = (int, string)

  /** `parse_number_and_color`: the first token as an `i32` and the second
      token as the colour; anything after them is ignored. */
  function ParseNumberAndColor(s: string): (r: Option<Roll>)
    ensures r.Some? ==> I32_MIN <= r.value.0 <= I32_MAX && r.value.1 != [] && NoWhitespace(r.value.1)
  {
    var tokens := SplitWhitespace(s);
    if |tokens| >= 1 && ParseI32(tokens[0]).Some? && |tokens| >= 2
    then Some((ParseI32(tokens[0]).value, tokens[1]))
    else None
  }

  /** A count and a colour written as two words read back as that roll. */
  lemma ParseRoll(n: nat, colour: string)
    requires n <= I32_MAX && colour != [] && NoWhitespace(colour)
    ensures ParseNumberAndColor(Unwords([ToDecimal(n), colour])) == Some((n as int, colour))
  {
    SplitUnwords([ToDecimal(n), colour]);
    DecimalValueOfToDecimal(n);
  }

  /** A roll with fewer than two words, or whose first word is not an
      `i32`, is not read. */
  lemma ParseRollFails(s: string)
    ensures |SplitWhitespace(s)| < 2 ==> ParseNumberAndColor(s).None?
    ensures |SplitWhitespace(s)| >= 2 && ParseI32(SplitWhitespace(s)[0]).None? ==> ParseNumberAndColor(s).None?
  {
  }

  /** The three running maxima. */
  datatype Maxima = Maxima(red: int, green: int, blue: int)

  predicate IsColour(c: string) { c == "red" || c == "green" || c == "blue" }

  function MaxOf(m: Maxima, colour: string): int
    requires IsColour(colour)
  {
    if colour == "red" then m.red else if colour == "green" then m.green else m.blue
  }

  /** One roll's effect: a larger count of a known colour replaces that
      colour's maximum; an unreadable roll or an unknown colour changes
      nothing (the diagnostic `println!`s). */
  function Update(m: Maxima, roll: Option<Roll>): Maxima
  {
    match roll
    case None => m
    case Some((n, c)) =>
      if c == "red" then (if n > m.red then m.(red := n) else m)
      else if c == "green" then (if n > m.green then m.(green := n) else m)
      else if c == "blue" then (if n > m.blue then m.(blue := n) else m)
      else m
  }

  /** The maxima after a sequence of rolls, from zero. */
  function MaximaOf(rolls: seq<Option<Roll>>): Maxima
  {
    if rolls == [] then Maxima(0, 0, 0) else Update(MaximaOf(rolls[..|rolls| - 1]), rolls[|rolls| - 1])
  }

  /** The count a roll contributes to `colour`, or 0 when it does not name it. */
  function CountOf(roll: Option<Roll>, colour: string): int
  {
    if roll.Some? && roll.value.1 == colour then roll.value.0 else 0
  }

  /** Each maximum is the largest count of its colour, or 0 when no roll of
      that colour has a positive count. */
  lemma {:induction false} MaximaSpec(rolls: seq<Option<Roll>>, colour: string)
    requires IsColour(colour)
    ensures MaxOf(MaximaOf(rolls), colour) >= 0
    ensures forall k :: 0 <= k < |rolls| ==> CountOf(rolls[k], colour) <= MaxOf(MaximaOf(rolls), colour)
    ensures MaxOf(MaximaOf(rolls), colour) == 0 ||
      exists k :: 0 <= k < |rolls| && CountOf(rolls[k], colour) == MaxOf(MaximaOf(rolls), colour)
  {
    if rolls != [] {
      var front := rolls[..|rolls| - 1];
      MaximaSpec(front, colour);
      assert forall k :: 0 <= k < |front| ==> front[k] == rolls[k];
      var m := MaxOf(MaximaOf(front), colour);
      if MaxOf(MaximaOf(rolls), colour) != 0 && MaxOf(MaximaOf(rolls), colour) == m && m != 0 {
        var k :| 0 <= k < |front| && CountOf(front[k], colour) == m;
        assert CountOf(rolls[k], colour) == m;
      }
    }
  }

  /** The maxima do not depend on the order of the rolls. */
  lemma MaximaPermutation(xs: seq<Option<Roll>>, ys: seq<Option<Roll>>)
    requires multiset(xs) == multiset(ys)
    ensures MaximaOf(xs) == MaximaOf(ys)
  {
    MaxUnique(xs, ys, "red");
    MaxUnique(xs, ys, "green");
    MaxUnique(xs, ys, "blue");
  }

  lemma MaxUnique(xs: seq<Option<Roll>>, ys: seq<Option<Roll>>, colour: string)
    requires multiset(xs) == multiset(ys) && IsColour(colour)
    ensures MaxOf(MaximaOf(xs), colour) == MaxOf(MaximaOf(ys), colour)
  {
    MaxBelow(xs, ys, colour);
    MaxBelow(ys, xs, colour);
  }

  lemma MaxBelow(xs: seq<Option<Roll>>, ys: seq<Option<Roll>>, colour: string)
    requires multiset(xs) == multiset(ys) && IsColour(colour)
    ensures MaxOf(MaximaOf(xs), colour) <= MaxOf(MaximaOf(ys), colour)
  {
    MaximaSpec(xs, colour);
    MaximaSpec(ys, colour);
    var m := MaxOf(MaximaOf(xs), colour);
    if m != 0 {
      var k :| 0 <= k < |xs| && CountOf(xs[k], colour) == m;
      assert xs[k] in multiset(ys);
      var j :| 0 <= j < |ys| && ys[j] == xs[k];
    }
  }

  /** Rolls a game line holds: the draws split at `;`, each split at `,`,
      in reading order. */
  function Rolls(line: string): seq<string>
  {
    var draws := Split(line, ';');
    Flatten(seq(|draws|, i requires 0 <= i < |draws| => Split(draws[i], ',')))
  }

  function Flatten<T>(xss: seq<seq<T>>): seq<T>
  {
    if xss == [] then [] else Flatten(xss[..|xss| - 1]) + xss[|xss| - 1]
  }

  /** Every roll read. */
  /** The first element of a flattening is the first element of the first
      inner sequence. */
  lemma {:induction false} FlattenHead<T>(xss: seq<seq<T>>)
    requires |xss| >= 1 && |xss[0]| >= 1
    ensures |Flatten(xss)| >= 1 && Flatten(xss)[0] == xss[0][0]
  {
    if |xss| > 1 {
      FlattenHead(xss[..|xss| - 1]);
    }
  }

  /** Changing only the first element of the first inner sequence changes
      only the first element of the flattening. */
  lemma {:induction false} FlattenFirst<T>(xss: seq<seq<T>>, ys: seq<T>)
    requires |xss| >= 1 && |ys| == |xss[0]| >= 1 && ys[1..] == xss[0][1..]
    ensures |Flatten(xss)| >= 1
    ensures Flatten(xss[0 := ys]) == [ys[0]] + Flatten(xss)[1..]
  {
    FlattenHead(xss);
    var n := |xss|;
    if n == 1 {
      assert xss[0 := ys] == [ys];
      assert Flatten([ys]) == ys;
      assert ys == [ys[0]] + ys[1..];
    } else {
      var front := xss[..n - 1];
      assert xss[0 := ys][..n - 1] == front[0 := ys];
      FlattenFirst(front, ys);
      FlattenHead(front);
      assert Flatten(xss) == Flatten(front) + xss[n - 1];
      assert Flatten(xss)[1..] == Flatten(front)[1..] + xss[n - 1];
    }
  }

  /** Text free of `;` and `,` written before a game joins its first roll;
      every other roll is unchanged. */
  lemma RollsLabelled(prefix: string, text: string)
    requires ';' !in prefix && ',' !in prefix
    ensures |Rolls(text)| >= 1
    ensures Rolls(prefix + text) == [prefix + Rolls(text)[0]] + Rolls(text)[1..]
  {
    var draws := Split(text, ';');
    SplitPrefix(prefix, text, ';');
    var draws' := Split(prefix + text, ';');
    assert draws' == [prefix + draws[0]] + draws[1..];
    var xss := seq(|draws|, i requires 0 <= i < |draws| => Split(draws[i], ','));
    var xss' := seq(|draws'|, i requires 0 <= i < |draws'| => Split(draws'[i], ','));
    SplitPrefix(prefix, draws[0], ',');
    var ys := Split(prefix + draws[0], ',');
    assert ys == [prefix + xss[0][0]] + xss[0][1..];
    assert xss' == xss[0 := ys];
    assert Rolls(text) == Flatten(xss);
    assert Rolls(prefix + text) == Flatten(xss');
    FlattenFirst(xss, ys);
    FlattenHead(xss);
    assert ys[0] == prefix + Rolls(text)[0];
    assert Flatten(xss') == [ys[0]] + Rolls(text)[1..];
  }

  function Parse(rolls: seq<string>): (ps: seq<Option<Roll>>)
    ensures |ps| == |rolls| && forall k :: 0 <= k < |rolls| ==> ps[k] == ParseNumberAndColor(rolls[k])
  {
    seq(|rolls|, k requires 0 <= k < |rolls| => ParseNumberAndColor(rolls[k]))
  }

  lemma MaximaAppend(rolls: seq<string>, roll: string)
    ensures MaximaOf(Parse(rolls + [roll])) == Update(MaximaOf(Parse(rolls)), ParseNumberAndColor(roll))
  {
    assert Parse(rolls + [roll])[..|rolls|] == Parse(rolls);
  }

  /** The nested loops over draws and rolls: the maxima of all rolls of the
      line. */
  method ComputeMaxima(line: string) returns (m: Maxima)
    ensures m == MaximaOf(Parse(Rolls(line)))
  {
    var draws := Split(line, ';');
    ghost var split := seq(|draws|, i requires 0 <= i < |draws| => Split(draws[i], ','));
    m := Maxima(0, 0, 0);
    for i := 0 to |draws|
      invariant m == MaximaOf(Parse(Flatten(split[..i])))
    {
      var rolls := Split(draws[i], ',');
      m := ScanDraw(m, Flatten(split[..i]), rolls);
      assert split[..i + 1][..i] == split[..i];
    }
    assert split[..|draws|] == split;
  }

  /** The inner loop over one draw's rolls, continuing from the maxima of
      the rolls `done` before it. */
  method ScanDraw(m0: Maxima, ghost done: seq<string>, rolls: seq<string>) returns (m: Maxima)
    requires m0 == MaximaOf(Parse(done))
    ensures m == MaximaOf(Parse(done + rolls))
  {
    m := m0;
    assert done + rolls[..0] == done;
    for j := 0 to |rolls|
      invariant m == MaximaOf(Parse(done + rolls[..j]))
    {
      var parsed := ParseNumberAndColor(rolls[j]);
      ScanStep(done, rolls, j);
      match parsed {
        case None =>
        case Some((number, colour)) =>
          if colour == "red" {
            if number > m.red {
              m := m.(red := number);
            }
          } else if colour == "green" {
            if number > m.green {
              m := m.(green := number);
            }
          } else if colour == "blue" {
            if number > m.blue {
              m := m.(blue := number);
            }
          }
      }
    }
    assert rolls[..|rolls|] == rolls;
  }

  /** One more roll of the draw updates the maxima. */
  lemma ScanStep(done: seq<string>, rolls: seq<string>, j: nat)
    requires j < |rolls|
    ensures MaximaOf(Parse(done + rolls[..j + 1])) ==
      Update(MaximaOf(Parse(done + rolls[..j])), ParseNumberAndColor(rolls[j]))
  {
    MaximaAppend(done + rolls[..j], rolls[j]);
    assert done + rolls[..j + 1] == done + rolls[..j] + [rolls[j]];
  }

  // ---------------------------------------------------------------------
  // Game lines written out, for the examples

  /** A roll as the puzzle writes it after a `:`, `;` or `,`. */
  function RollText(n: nat, colour: string): string
  {
    " " + Unwords([ToDecimal(n), colour])
  }

  /** A game's draws written out: rolls joined by `,`, draws by `;`. */
  function GameText(draws: seq<seq<(nat, string)>>): string
    requires |draws| >= 1 && forall i :: 0 <= i < |draws| ==> |draws[i]| >= 1
  {
    Join(seq(|draws|, i requires 0 <= i < |draws| => DrawText(draws[i])), ';')
  }

  function DrawText(rolls: seq<(nat, string)>): string
    requires |rolls| >= 1
  {
    Join(RollTexts(rolls), ',')
  }

  function RollTexts(rolls: seq<(nat, string)>): (ts: seq<string>)
    ensures |ts| == |rolls|
  {
    seq(|rolls|, j requires 0 <= j < |rolls| => RollText(rolls[j].0, rolls[j].1))
  }

  /** The rolls a written game reads back as, in order. */
  function Expected(draws: seq<seq<(nat, string)>>): seq<Option<Roll>>
  {
    Flatten(seq(|draws|, i requires 0 <= i < |draws| => Pairs(draws[i])))
  }

  function Pairs(rolls: seq<(nat, string)>): (ps: seq<Option<Roll>>)
    ensures |ps| == |rolls|
  {
    seq(|rolls|, j requires 0 <= j < |rolls| => Some((rolls[j].0 as int, rolls[j].1)))
  }

  /** The first roll a written game reads back as is its first roll. */
  lemma ExpectedHead(draws: seq<seq<(nat, string)>>)
    requires |draws| >= 1 && |draws[0]| >= 1
    ensures |Expected(draws)| >= 1 && Expected(draws)[0] == Some((draws[0][0].0 as int, draws[0][0].1))
  {
    var xss := seq(|draws|, i requires 0 <= i < |draws| => Pairs(draws[i]));
    FlattenHead(xss);
  }

  predicate Writable(draws: seq<seq<(nat, string)>>)
  {
    |draws| >= 1 &&
    forall i :: 0 <= i < |draws| ==>
      (|draws[i]| >= 1 && forall j :: 0 <= j < |draws[i]| ==> WritableRoll(draws[i][j]))
  }

  predicate WritableRoll(roll: (nat, string))
  {
    roll.0 <= I32_MAX && roll.1 != [] && NoWhitespace(roll.1) && ',' !in roll.1 && ';' !in roll.1
  }

  /** Reading a written game gives back its rolls. */
  lemma ReadGameText(draws: seq<seq<(nat, string)>>)
    requires Writable(draws)
    ensures Parse(Rolls(GameText(draws))) == Expected(draws)
  {
    var texts := seq(|draws|, i requires 0 <= i < |draws| => DrawText(draws[i]));
    forall i | 0 <= i < |draws|
      ensures ';' !in texts[i]
      ensures Split(texts[i], ',') == RollTexts(draws[i])
    {
      DrawTextSplit(draws[i]);
    }
    SplitJoin(texts, ';');
    var split := seq(|texts|, i requires 0 <= i < |texts| => Split(texts[i], ','));
    assert Rolls(GameText(draws)) == Flatten(split);
    ParseFlatten(draws, split);
  }

  lemma {:induction false} ParseFlatten(draws: seq<seq<(nat, string)>>, split: seq<seq<string>>)
    requires |split| == |draws|
    requires forall i :: 0 <= i < |draws| ==> forall j :: 0 <= j < |draws[i]| ==> WritableRoll(draws[i][j])
    requires forall i :: 0 <= i < |draws| ==> split[i] == RollTexts(draws[i])
    ensures Parse(Flatten(split)) == Expected(draws)
  {
    if draws != [] {
      var n := |draws| - 1;
      ParseFlatten(draws[..n], split[..n]);
      var a, b := Flatten(split[..n]), split[n];
      assert Flatten(split) == a + b;
      ParseConcat(a, b);
      ParseDraw(draws[n], b);
      ExpectedSnoc(draws);
    }
  }

  lemma ParseConcat(a: seq<string>, b: seq<string>)
    ensures Parse(a + b) == Parse(a) + Parse(b)
  {
  }

  /** The written rolls of one draw read back as its rolls. */
  lemma ParseDraw(rolls: seq<(nat, string)>, texts: seq<string>)
    requires forall j :: 0 <= j < |rolls| ==> WritableRoll(rolls[j])
    requires texts == RollTexts(rolls)
    ensures Parse(texts) == Pairs(rolls)
  {
    forall j | 0 <= j < |rolls|
      ensures ParseNumberAndColor(texts[j]) == Some((rolls[j].0 as int, rolls[j].1))
    {
      RollTextParses(rolls[j].0, rolls[j].1);
    }
  }

  lemma ExpectedSnoc(draws: seq<seq<(nat, string)>>)
    requires draws != []
    ensures Expected(draws) == Expected(draws[..|draws| - 1]) + Pairs(draws[|draws| - 1])
  {
    var n := |draws| - 1;
    var e := seq(|draws|, i requires 0 <= i < |draws| => Pairs(draws[i]));
    assert e[..n] == seq(n, i requires 0 <= i < n => Pairs(draws[..n][i]));
  }

  lemma RollTextParses(n: nat, colour: string)
    requires WritableRoll((n, colour))
    ensures ParseNumberAndColor(RollText(n, colour)) == Some((n as int, colour))
  {
    var w := Unwords([ToDecimal(n), colour]);
    ParseRoll(n, colour);
    assert (" " + w)[1..] == w;
    assert SplitWhitespace(" " + w) == SplitWhitespace(w);
  }

  lemma DrawTextSplit(rolls: seq<(nat, string)>)
    requires |rolls| >= 1 && forall j :: 0 <= j < |rolls| ==> WritableRoll(rolls[j])
    ensures ';' !in DrawText(rolls)
    ensures Split(DrawText(rolls), ',') == RollTexts(rolls)
  {
    var ts := RollTexts(rolls);
    forall j | 0 <= j < |ts|
      ensures ',' !in ts[j] && ';' !in ts[j]
    {
      RollTextChars(rolls[j].0, rolls[j].1);
    }
    SplitJoin(ts, ',');
    JoinAvoids(ts, ',', ';');
  }

  lemma RollTextChars(n: nat, colour: string)
    requires WritableRoll((n, colour))
    ensures ',' !in RollText(n, colour) && ';' !in RollText(n, colour)
  {
    var d := ToDecimal(n);
    assert [d, colour][1..] == [colour];
    assert Unwords([d, colour]) == d + " " + colour;
    assert RollText(n, colour) == " " + d + " " + colour;
    assert forall k :: 0 <= k < |d| ==> IsDigit(d[k]);
  }

  /** Joining pieces that avoid a character with a different separator
      keeps avoiding it. */
  lemma {:induction false} JoinAvoids(pieces: seq<string>, sep: char, c: char)
    requires |pieces| >= 1 && sep != c && forall k :: 0 <= k < |pieces| ==> c !in pieces[k]
    ensures c !in Join(pieces, sep)
  {
    if |pieces| > 1 {
      JoinAvoids(pieces[1..], sep, c);
    }
  }

  // ---------------------------------------------------------------------
  // The five example games of both unit tests

  const EXAMPLE_GAMES: seq<seq<seq<(nat, string)>>> := [
    [[(3, "blue"), (4, "red")], [(1, "red"), (2, "green"), (6, "blue")], [(2, "green")]],
    [[(1, "blue"), (2, "green")], [(3, "green"), (4, "blue"), (1, "red")], [(1, "green"), (1, "blue")]],
    [[(8, "green"), (6, "blue"), (20, "red")], [(5, "blue"), (4, "red"), (13, "green")], [(5, "green"), (1, "red")]],
    [[(1, "green"), (3, "red"), (6, "blue")], [(3, "green"), (6, "red")], [(3, "green"), (15, "blue"), (14, "red")]],
    [[(6, "red"), (1, "blue"), (3, "green")], [(2, "blue"), (1, "red"), (2, "green")]]
  ]

  /** The maxima of each example game, read from its text. */
  const EXAMPLE_MAXIMA: seq<Maxima> :=
    [Maxima(4, 2, 6), Maxima(1, 3, 4), Maxima(20, 13, 6), Maxima(14, 3, 15), Maxima(6, 3, 2)]

  lemma ExampleMaxima(i: nat)
    requires i < 5
    ensures |EXAMPLE_GAMES| == 5 && Writable(EXAMPLE_GAMES[i])
    ensures MaximaOf(Parse(Rolls(GameText(EXAMPLE_GAMES[i])))) == EXAMPLE_MAXIMA[i]
  {
    var g := EXAMPLE_GAMES[i];
    ColoursWritable();
    assert Writable(g);
    ReadGameText(g);
    if i == 0 { Example0(); }
    else if i == 1 { Example1(); }
    else if i == 2 { Example2(); }
    else if i == 3 { Example3(); }
    else { Example4(); }
  }

  lemma ColoursWritable()
    ensures forall n: nat :: n <= I32_MAX ==> WritableRoll((n, "red")) && WritableRoll((n, "green")) && WritableRoll((n, "blue"))
  {
    var r, g, b := "red", "green", "blue";
    assert forall k :: 0 <= k < |r| ==> 'a' <= r[k] <= 'z';
    assert forall k :: 0 <= k < |g| ==> 'a' <= g[k] <= 'z';
    assert forall k :: 0 <= k < |b| ==> 'a' <= b[k] <= 'z';
  }

  lemma Flatten2<T>(a: seq<T>, b: seq<T>)
    ensures Flatten([a, b]) == a + b
  {
    assert [a, b][..1] == [a];
    assert [a][..0] == [];
    assert Flatten([a]) == [] + a == a;
  }

  lemma Flatten3<T>(a: seq<T>, b: seq<T>, c: seq<T>)
    ensures Flatten([a, b, c]) == a + b + c
  {
    assert [a, b, c][..2] == [a, b];
    Flatten2(a, b);
  }

  /** A value bounding every count of a colour and reached by one of them
      (or zero) is that colour's maximum. */
  lemma MaxIs(rolls: seq<Option<Roll>>, colour: string, v: int)
    requires IsColour(colour) && v >= 0
    requires forall k :: 0 <= k < |rolls| ==> CountOf(rolls[k], colour) <= v
    requires v == 0 || exists k :: 0 <= k < |rolls| && CountOf(rolls[k], colour) == v
    ensures MaxOf(MaximaOf(rolls), colour) == v
  {
    MaximaSpec(rolls, colour);
  }

  /** The maxima of one example game's rolls, colour by colour. */
  lemma MaximaAre(rolls: seq<Option<Roll>>, m: Maxima)
    requires m.red >= 0 && m.green >= 0 && m.blue >= 0
    requires forall k :: 0 <= k < |rolls| ==>
      CountOf(rolls[k], "red") <= m.red && CountOf(rolls[k], "green") <= m.green && CountOf(rolls[k], "blue") <= m.blue
    requires m.red == 0 || exists k :: 0 <= k < |rolls| && CountOf(rolls[k], "red") == m.red
    requires m.green == 0 || exists k :: 0 <= k < |rolls| && CountOf(rolls[k], "green") == m.green
    requires m.blue == 0 || exists k :: 0 <= k < |rolls| && CountOf(rolls[k], "blue") == m.blue
    ensures MaximaOf(rolls) == m
  {
    MaxIs(rolls, "red", m.red);
    MaxIs(rolls, "green", m.green);
    MaxIs(rolls, "blue", m.blue);
  }

  lemma Example0()
    ensures MaximaOf(Expected(EXAMPLE_GAMES[0])) == EXAMPLE_MAXIMA[0]
  {
    var g := EXAMPLE_GAMES[0];
    var a, b, c := [Some((3, "blue")), Some((4, "red"))], [Some((1, "red")), Some((2, "green")), Some((6, "blue"))],
      [Some((2, "green"))];
    assert Pairs(g[0]) == a && Pairs(g[1]) == b && Pairs(g[2]) == c;
    assert seq(|g|, i requires 0 <= i < |g| => Pairs(g[i])) == [a, b, c];
    Flatten3(a, b, c);
    assert Expected(g) == a + b + c;
    var r := Expected(g);
    assert CountOf(r[1], "red") == EXAMPLE_MAXIMA[0].red;
    assert CountOf(r[3], "green") == EXAMPLE_MAXIMA[0].green;
    assert CountOf(r[4], "blue") == EXAMPLE_MAXIMA[0].blue;
    MaximaAre(r, EXAMPLE_MAXIMA[0]);
  }

  lemma Example1()
    ensures MaximaOf(Expected(EXAMPLE_GAMES[1])) == EXAMPLE_MAXIMA[1]
  {
    var g := EXAMPLE_GAMES[1];
    var a, b, c := [Some((1, "blue")), Some((2, "green"))], [Some((3, "green")), Some((4, "blue")), Some((1, "red"))],
      [Some((1, "green")), Some((1, "blue"))];
    assert Pairs(g[0]) == a && Pairs(g[1]) == b && Pairs(g[2]) == c;
    assert seq(|g|, i requires 0 <= i < |g| => Pairs(g[i])) == [a, b, c];
    Flatten3(a, b, c);
    assert Expected(g) == a + b + c;
    var r := Expected(g);
    assert CountOf(r[4], "red") == EXAMPLE_MAXIMA[1].red;
    assert CountOf(r[2], "green") == EXAMPLE_MAXIMA[1].green;
    assert CountOf(r[3], "blue") == EXAMPLE_MAXIMA[1].blue;
    MaximaAre(r, EXAMPLE_MAXIMA[1]);
  }

  lemma Example2()
    ensures MaximaOf(Expected(EXAMPLE_GAMES[2])) == EXAMPLE_MAXIMA[2]
  {
    var g := EXAMPLE_GAMES[2];
    var a, b, c := [Some((8, "green")), Some((6, "blue")), Some((20, "red"))],
      [Some((5, "blue")), Some((4, "red")), Some((13, "green"))], [Some((5, "green")), Some((1, "red"))];
    assert Pairs(g[0]) == a && Pairs(g[1]) == b && Pairs(g[2]) == c;
    assert seq(|g|, i requires 0 <= i < |g| => Pairs(g[i])) == [a, b, c];
    Flatten3(a, b, c);
    assert Expected(g) == a + b + c;
    var r := Expected(g);
    assert CountOf(r[2], "red") == EXAMPLE_MAXIMA[2].red;
    assert CountOf(r[5], "green") == EXAMPLE_MAXIMA[2].green;
    assert CountOf(r[1], "blue") == EXAMPLE_MAXIMA[2].blue;
    MaximaAre(r, EXAMPLE_MAXIMA[2]);
  }

  lemma Example3()
    ensures MaximaOf(Expected(EXAMPLE_GAMES[3])) == EXAMPLE_MAXIMA[3]
  {
    var g := EXAMPLE_GAMES[3];
    var a, b, c := [Some((1, "green")), Some((3, "red")), Some((6, "blue"))], [Some((3, "green")), Some((6, "red"))],
      [Some((3, "green")), Some((15, "blue")), Some((14, "red"))];
    assert Pairs(g[0]) == a && Pairs(g[1]) == b && Pairs(g[2]) == c;
    assert seq(|g|, i requires 0 <= i < |g| => Pairs(g[i])) == [a, b, c];
    Flatten3(a, b, c);
    assert Expected(g) == a + b + c;
    var r := Expected(g);
    assert CountOf(r[7], "red") == EXAMPLE_MAXIMA[3].red;
    assert CountOf(r[3], "green") == EXAMPLE_MAXIMA[3].green;
    assert CountOf(r[6], "blue") == EXAMPLE_MAXIMA[3].blue;
    MaximaAre(r, EXAMPLE_MAXIMA[3]);
  }

  lemma Example4()
    ensures MaximaOf(Expected(EXAMPLE_GAMES[4])) == EXAMPLE_MAXIMA[4]
  {
    var g := EXAMPLE_GAMES[4];
    var a, b := [Some((6, "red")), Some((1, "blue")), Some((3, "green"))], [Some((2, "blue")), Some((1, "red")), Some((2, "green"))];
    assert Pairs(g[0]) == a && Pairs(g[1]) == b;
    assert seq(|g|, i requires 0 <= i < |g| => Pairs(g[i])) == [a, b];
    Flatten2(a, b);
    assert Expected(g) == a + b;
    var r := Expected(g);
    assert CountOf(r[0], "red") == EXAMPLE_MAXIMA[4].red;
    assert CountOf(r[2], "green") == EXAMPLE_MAXIMA[4].green;
    assert CountOf(r[3], "blue") == EXAMPLE_MAXIMA[4].blue;
    MaximaAre(r, EXAMPLE_MAXIMA[4]);
  }
}
