/** Day 4: scratchcards. A line `Card n: winning | numbers` becomes a card
    with two sets of numbers (`parse_line` in day4p1.rs and day4p2.rs, which
    are the same). */
module Day4Cards {
  import opened Common
  import opened Text

  datatype Card = Card(id: string, winning: set<nat>, numbers: set<nat>)

  /** The two panics of `parse_line`. */
  datatype CardError = BadCardId | BadValues

  /** The tokens of a side of the bar. */
  function Tokens(side: string): seq<string>
  {
    SplitWhitespace(Trim(side))
  }

  /** The values of the tokens that read as `u32`s; other tokens are
      skipped. */
  function NumberSet(tokens: seq<string>): set<nat>
  {
    set k | 0 <= k < |tokens| && ParseU32(tokens[k]).Some? :: ParseU32(tokens[k]).value
  }

  /** What `parse_line` makes of `line`. */
  function CardOf(line: string): Result<Card, CardError>
  {
    var parts := Split(line, ':');
    if |parts| != 2 then Err(BadCardId)
    else
      var sides := Split(parts[1], '|');
      if |sides| != 2 then Err(BadValues)
      else Ok(Card(parts[0], NumberSet(Tokens(sides[0])), NumberSet(Tokens(sides[1]))))
  }

  /** The loop that fills one of the sets. */
  method CollectNumbers(side: string) returns (numbers: set<nat>)
    ensures numbers == NumberSet(Tokens(side))
  {
    var tokens := Tokens(side);
    numbers := {};
    for k := 0 to |tokens|
      invariant numbers == NumberSet(tokens[..k])
    {
      NumberSetSnoc(tokens, k);
      var parsed := ParseU32(tokens[k]);
      if parsed.Some? {
        numbers := numbers + {parsed.value};
      }
    }
    assert tokens[..|tokens|] == tokens;
  }

  /** One more token adds its value, if it has one. */
  lemma NumberSetSnoc(tokens: seq<string>, k: nat)
    requires k < |tokens|
    ensures NumberSet(tokens[..k + 1]) ==
      NumberSet(tokens[..k]) + if ParseU32(tokens[k]).Some? then {ParseU32(tokens[k]).value} else {}
  {
    var front, longer := tokens[..k], tokens[..k + 1];
    assert forall j :: 0 <= j < k ==> longer[j] == front[j];
    assert longer[k] == tokens[k];
  }

  method ParseLine(line: string) returns (r: Result<Card, CardError>)
    ensures r == CardOf(line)
  {
    var parts := Split(line, ':');
    if |parts| != 2 {
      return Err(BadCardId);
    }
    var sides := Split(parts[1], '|');
    if |sides| != 2 {
      return Err(BadValues);
    }
    var winning := CollectNumbers(sides[0]);
    var numbers := CollectNumbers(sides[1]);
    return Ok(Card(parts[0], winning, numbers));
  }

  /** A line is a card exactly when it holds one colon, and after it one
      bar. */
  lemma CardOfErrors(line: string)
    ensures CardOf(line) == Err(BadCardId) <==> multiset(line)[':'] != 1
    ensures multiset(line)[':'] == 1 ==>
      (CardOf(line) == Err(BadValues) <==> multiset(Split(line, ':')[1])['|'] != 1)
  {
    SplitCount(line, ':');
    if multiset(line)[':'] == 1 {
      SplitCount(Split(line, ':')[1], '|');
    }
  }

  /** A token that is not a number, or repeats one already read, leaves the
      set as it is; a new number joins it. */
  lemma NumberSetAppend(tokens: seq<string>, t: string)
    ensures ParseU32(t).None? ==> NumberSet(tokens + [t]) == NumberSet(tokens)
    ensures ParseU32(t).Some? ==> NumberSet(tokens + [t]) == NumberSet(tokens) + {ParseU32(t).value}
  {
    var ts := tokens + [t];
    assert forall k :: 0 <= k < |tokens| ==> ts[k] == tokens[k];
    assert ts[|tokens|] == t;
    if ParseU32(t).Some? {
      assert ParseU32(t).value in NumberSet(ts);
    }
  }

  /** The numbers a card matches (`winning_numbers.intersection(&game_numbers).count()`). */
  function Matches(c: Card): (k: nat)
    ensures k <= |c.winning| && k <= |c.numbers|
  {
    IntersectionBound(c.winning, c.numbers);
    |c.winning * c.numbers|
  }

  lemma IntersectionBound(a: set<nat>, b: set<nat>)
    ensures |a * b| <= |a| && |a * b| <= |b|
  {
    assert a * b <= a;
    assert a * b <= b;
    SubsetCard(a * b, a);
    SubsetCard(a * b, b);
  }

  lemma {:induction false} SubsetCard(a: set<nat>, b: set<nat>)
    requires a <= b
    ensures |a| <= |b|
    decreases |b|
  {
    if a != {} {
      var x :| x in a;
      SubsetCard(a - {x}, b - {x});
    }
  }

  // ---------------------------------------------------------------------
  // The cards of the unit tests, as sets

  const EXAMPLE_CARDS: seq<Card> := [
    Card("Card 1", {41, 48, 83, 86, 17}, {83, 86, 6, 31, 17, 9, 48, 53}),
    Card("Card 2", {13, 32, 20, 16, 61}, {61, 30, 68, 82, 17, 32, 24, 19}),
    Card("Card 3", {1, 21, 53, 59, 44}, {69, 82, 63, 72, 16, 21, 14, 1}),
    Card("Card 4", {41, 92, 73, 84, 69}, {59, 84, 76, 51, 58, 5, 54, 83}),
    Card("Card 5", {87, 83, 26, 28, 32}, {88, 30, 70, 12, 93, 22, 82, 36}),
    Card("Card 6", {31, 18, 13, 56, 72}, {74, 77, 10, 23, 35, 67, 36, 11})]

  /** Card 1 of the unit test shares 48, 83, 86 and 17. */
  lemma Card1Matches()
    ensures Matches(EXAMPLE_CARDS[0]) == 4
  {
    var c := EXAMPLE_CARDS[0];
    CommonNumbers(c.winning, c.numbers, {48, 83, 86, 17});
  }

  lemma Card2Matches()
    ensures Matches(EXAMPLE_CARDS[1]) == 2
  {
    var c := EXAMPLE_CARDS[1];
    CommonNumbers(c.winning, c.numbers, {32, 61});
  }

  lemma Card3Matches()
    ensures Matches(EXAMPLE_CARDS[2]) == 2
  {
    var c := EXAMPLE_CARDS[2];
    CommonNumbers(c.winning, c.numbers, {1, 21});
  }

  lemma Card4Matches()
    ensures Matches(EXAMPLE_CARDS[3]) == 1
  {
    var c := EXAMPLE_CARDS[3];
    CommonNumbers(c.winning, c.numbers, {84});
  }

  lemma Card5Matches()
    ensures Matches(EXAMPLE_CARDS[4]) == 0
  {
    var c := EXAMPLE_CARDS[4];
    CommonNumbers(c.winning, c.numbers, {});
  }

  lemma Card6Matches()
    ensures Matches(EXAMPLE_CARDS[5]) == 0
  {
    var c := EXAMPLE_CARDS[5];
    CommonNumbers(c.winning, c.numbers, {});
  }

  /** The cards of the unit test match 4, 2, 2, 1, 0 and 0 numbers. */
  lemma ExampleMatches(i: nat)
    requires i < |EXAMPLE_CARDS|
    ensures Matches(EXAMPLE_CARDS[i]) == [4, 2, 2, 1, 0, 0][i]
  {
    if i == 0 {
      Card1Matches();
    } else if i == 1 {
      Card2Matches();
    } else if i == 2 {
      Card3Matches();
    } else if i == 3 {
      Card4Matches();
    } else if i == 4 {
      Card5Matches();
    } else {
      Card6Matches();
    }
  }

  /** The numbers two sets share, checked element by element. */
  lemma CommonNumbers(a: set<nat>, b: set<nat>, common: set<nat>)
    requires common <= a && common <= b
    requires forall x :: x in a && x !in common ==> x !in b
    ensures a * b == common
  {
  }


}
