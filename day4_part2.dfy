/** Day 4, part 2: each card wins copies of the cards after it, one per
    match, and every copy wins again (`count_cards` and `scan_cards` in
    day4p2.rs). */
module Day4Part2 {
  import opened Common
  import opened Text
  import opened Day4Cards

  /** `Card::calculate_points` of part 2: the match count of each card. */
  function MatchCounts(cards: seq<Card>): (ks: seq<nat>)
    ensures |ks| == |cards|
    ensures forall i :: 0 <= i < |cards| ==> ks[i] == Matches(cards[i])
  {
    seq(|cards|, i requires 0 <= i < |cards| => Matches(cards[i]))
  }

  /** The copies card `i` wins stay inside the deck. */
  predicate WinsInside(ks: seq<nat>, i: nat)
    requires i < |ks|
  {
    i + ks[i] < |ks|
  }

  /** Processing card `i`: each of the next `k` cards gains as many copies
      as card `i` has. */
  function Step(counts: seq<nat>, i: nat, k: nat): (next: seq<nat>)
    requires i < |counts|
    ensures |next| == |counts|
  {
    seq(|counts|, j requires 0 <= j < |counts| => if i < j <= i + k then counts[j] + counts[i] else counts[j])
  }

  /** The copy counts once cards `0 .. i-1` are processed; every card
      starts with one copy. */
  function CopiesAfter(ks: seq<nat>, i: nat): (counts: seq<nat>)
    requires i <= |ks|
    ensures |counts| == |ks|
  {
    if i == 0 then seq(|ks|, _ => 1) else Step(CopiesAfter(ks, i - 1), i - 1, ks[i - 1])
  }

  /** Every card keeps at least its original copy. */
  lemma {:induction false} CopiesPositive(ks: seq<nat>, i: nat)
    requires i <= |ks|
    ensures forall j :: 0 <= j < |ks| ==> CopiesAfter(ks, i)[j] >= 1
  {
    if i > 0 {
      CopiesPositive(ks, i - 1);
    }
  }

  /** Once card `i` is reached its count is final: later steps only add to
      cards after the one they process. */
  lemma {:induction false} CopiesSettled(ks: seq<nat>, i: nat, m: nat)
    requires i < m <= |ks|
    ensures CopiesAfter(ks, m)[i] == CopiesAfter(ks, i)[i]
    decreases m
  {
    if m - 1 > i {
      CopiesSettled(ks, i, m - 1);
    }
  }

  /** The total number of cards is at least the number of original cards. */
  lemma TotalAtLeastCards(ks: seq<nat>)
    ensures Sum(CopiesAfter(ks, |ks|)) >= |ks|
  {
    CopiesPositive(ks, |ks|);
    SumAtLeastLength(CopiesAfter(ks, |ks|));
  }

  lemma {:induction false} SumAtLeastLength(xs: seq<nat>)
    requires forall j :: 0 <= j < |xs| ==> xs[j] >= 1
    ensures Sum(xs) >= |xs|
  {
    if xs != [] {
      SumAtLeastLength(xs[1..]);
    }
  }

  /** The inner loops of `count_cards` for card `i` with `k` matches: once
      per copy of card `i`, one more copy of each of the next `k` cards;
      `false` when one of them lies past the last card (the panic). */
  method WinCopies(counts: array<nat>, i: nat, k: nat) returns (ok: bool)
    requires i < counts.Length && counts[i] >= 1
    modifies counts
    ensures ok <==> i + k < counts.Length
    ensures ok ==> counts[..] == Step(old(counts[..]), i, k)
  {
    var n := counts.Length;
    var times := counts[i];
    ghost var before := counts[..];
    for t := 0 to times
      invariant forall m :: 0 <= m < n ==> counts[m] == if i < m <= i + k then before[m] + t else before[m]
      invariant t > 0 ==> i + k < n
    {
      for j := 1 to k + 1
        invariant forall m :: 0 <= m < n ==>
          counts[m] == if i < m < i + j then before[m] + t + 1 else if i + j <= m <= i + k then before[m] + t else before[m]
        invariant i + j <= n
      {
        if j + i >= n {
          return false;
        }
        counts[j + i] := counts[j + i] + 1;
      }
    }
    assert counts[..] == Step(before, i, k);
    return true;
  }

  /** `count_cards`: a copy count per card, starting at one; each card wins
      copies of the cards after it (`WinCopies`), where an index past the
      last card is the panic (`Err(i)` for the card `i` being processed);
      then the sum of the counts. */
  method CountCards(cards: seq<Card>) returns (r: Result<nat, nat>)
    ensures var ks := MatchCounts(cards);
      (r.Ok? <==> forall i :: 0 <= i < |ks| ==> WinsInside(ks, i)) &&
      (r.Ok? ==> r.value == Sum(CopiesAfter(ks, |ks|))) &&
      (r.Err? ==> r.error < |ks| && !WinsInside(ks, r.error) && forall i :: 0 <= i < r.error ==> WinsInside(ks, i))
  {
    ghost var ks := MatchCounts(cards);
    var n := |cards|;
    var counts := new nat[n](_ => 1);
    assert counts[..] == CopiesAfter(ks, 0);
    for i := 0 to n
      invariant counts[..] == CopiesAfter(ks, i)
      invariant forall j :: 0 <= j < i ==> WinsInside(ks, j)
    {
      var k := Matches(cards[i]);
      CopiesPositive(ks, i);
      var ok := WinCopies(counts, i, k);
      if !ok {
        assert ks[i] == k && !WinsInside(ks, i);
        return Err(i);
      }
    }
    var total := SumCounts(counts);
    return Ok(total);
  }

  /** The closing sum of `count_cards`. */
  method SumCounts(counts: array<nat>) returns (total: nat)
    ensures total == Sum(counts[..])
  {
    total := 0;
    for i := 0 to counts.Length
      invariant total == Sum(counts[..i])
    {
      assert counts[..i + 1] == counts[..i] + [counts[i]];
      SumAppend(counts[..i], counts[i]);
      total := total + counts[i];
    }
    assert counts[..counts.Length] == counts[..];
  }

  datatype ScanError = ScanError(line: nat, error: CardError)

  /** `scan_cards`: one card per line. */
  method ScanCards(input: string) returns (r: Result<seq<Card>, ScanError>)
    ensures var lines := Lines(input);
      (r.Ok? ==> |r.value| == |lines| && forall i :: 0 <= i < |lines| ==> CardOf(lines[i]) == Ok(r.value[i])) &&
      (r.Err? ==> (r.error.line < |lines| && CardOf(lines[r.error.line]) == Err(r.error.error) &&
                   forall i :: 0 <= i < r.error.line ==> CardOf(lines[i]).Ok?))
  {
    var lines := Lines(input);
    var cards: seq<Card> := [];
    for i := 0 to |lines|
      invariant |cards| == i
      invariant forall j :: 0 <= j < i ==> CardOf(lines[j]) == Ok(cards[j])
    {
      var card := ParseLine(lines[i]);
      if card.Err? {
        return Err(ScanError(i, card.error));
      }
      cards := cards + [card.value];
    }
    return Ok(cards);
  }

  /** The unit test: 30 cards in the end. */
  lemma ExampleTotal()
    ensures MatchCounts(EXAMPLE_CARDS) == [4, 2, 2, 1, 0, 0]
    ensures Sum(CopiesAfter([4, 2, 2, 1, 0, 0], 6)) == 30
  {
    ExampleMatchCounts();
    ExampleCopies();
    assert Sum([1, 2, 4, 8, 14, 1]) == 30;
  }

  lemma ExampleMatchCounts()
    ensures MatchCounts(EXAMPLE_CARDS) == [4, 2, 2, 1, 0, 0]
  {
    var ks := MatchCounts(EXAMPLE_CARDS);
    forall i | 0 <= i < 6
      ensures ks[i] == [4, 2, 2, 1, 0, 0][i]
    {
      ExampleMatches(i);
    }
  }

  /** The copy counts of the example after each card. */
  lemma ExampleCopies()
    ensures CopiesAfter([4, 2, 2, 1, 0, 0], 6) == [1, 2, 4, 8, 14, 1]
  {
    var ks := [4, 2, 2, 1, 0, 0];
    assert CopiesAfter(ks, 0) == [1, 1, 1, 1, 1, 1];
    ExampleStep([1, 1, 1, 1, 1, 1], 0, 4, [1, 2, 2, 2, 2, 1]);
    assert CopiesAfter(ks, 1) == [1, 2, 2, 2, 2, 1];
    ExampleStep([1, 2, 2, 2, 2, 1], 1, 2, [1, 2, 4, 4, 2, 1]);
    assert CopiesAfter(ks, 2) == [1, 2, 4, 4, 2, 1];
    ExampleStep([1, 2, 4, 4, 2, 1], 2, 2, [1, 2, 4, 8, 6, 1]);
    assert CopiesAfter(ks, 3) == [1, 2, 4, 8, 6, 1];
    ExampleStep([1, 2, 4, 8, 6, 1], 3, 1, [1, 2, 4, 8, 14, 1]);
    assert CopiesAfter(ks, 4) == [1, 2, 4, 8, 14, 1];
    ExampleStep([1, 2, 4, 8, 14, 1], 4, 0, [1, 2, 4, 8, 14, 1]);
    assert CopiesAfter(ks, 5) == [1, 2, 4, 8, 14, 1];
    ExampleStep([1, 2, 4, 8, 14, 1], 5, 0, [1, 2, 4, 8, 14, 1]);
  }

  /** One processing step of the example, checked element by element. */
  lemma ExampleStep(counts: seq<nat>, i: nat, k: nat, next: seq<nat>)
    requires i < |counts| == |next|
    requires forall j :: 0 <= j < |counts| ==> next[j] == if i < j <= i + k then counts[j] + counts[i] else counts[j]
    ensures Step(counts, i, k) == next
  {
  }
}
