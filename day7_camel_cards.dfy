/** Day 7, part 2: Camel Cards with jokers (day7p2.rs). A hand's card
    counts, with the jokers added to a largest group, decide its kind;
    hands are ordered by kind and then card by card, and the winnings are
    the bids weighted by rank. */
module Day7 {
  import opened Common
  import opened Text

  datatype HandKind = HighCard | OnePair | TwoPair | ThreeOfAKind | FullHouse | FourOfAKind | FiveOfAKind

  /** The position of a kind in declaration order, which is its strength. */
  function Rank(k: HandKind): (r: nat)
    ensures r <= 6
  {
    match k
    case HighCard => 0
    case OnePair => 1
    case TwoPair => 2
    case ThreeOfAKind => 3
    case FullHouse => 4
    case FourOfAKind => 5
    case FiveOfAKind => 6
  }

  lemma RankInjective(a: HandKind, b: HandKind)
    ensures Rank(a) == Rank(b) <==> a == b
  {
  }

  datatype Hand = Hand(bid: nat, cards: string, kind: HandKind)

  // ---------------------------------------------------------------------
  // Counting cards

  /** The counts reported for a hand of jokers only. */
  const FIVE_JOKERS: multiset<char> := multiset{'J', 'J', 'J', 'J', 'J'}

  /** `k` has a largest count among the keys of `counts`. */
  predicate IsMaxCard(counts: multiset<char>, k: char)
  {
    k in counts && forall c :: c in counts ==> counts[c] <= counts[k]
  }

  lemma {:induction false} MaxCardExists(counts: multiset<char>)
    requires |counts| > 0
    ensures exists k :: IsMaxCard(counts, k)
    decreases |counts|
  {
    var c :| c in counts;
    var rest := counts[c := 0];
    if |rest| == 0 {
      assert IsMaxCard(counts, c) by {
        forall d | d in counts ensures counts[d] <= counts[c] {
          if d != c { assert rest[d] == counts[d]; }
        }
      }
    } else {
      MaxCardExists(rest);
      var k :| IsMaxCard(rest, k);
      assert k != c && counts[k] == rest[k];
      forall d | d in counts && d != c ensures counts[d] <= counts[k] {
        assert rest[d] == counts[d];
      }
      if counts[c] <= counts[k] {
        assert IsMaxCard(counts, k);
      } else {
        assert IsMaxCard(counts, c);
      }
    }
  }

  /** The non-joker cards of a hand, counted. */
  function NonJokers(cards: string): (counts: multiset<char>)
    ensures 'J' !in counts && |counts| + multiset(cards)['J'] == |cards|
  {
    multiset(cards)['J' := 0]
  }

  /** `card_count`: count the non-jokers, then give all jokers to one largest
      group (whichever the map's iteration finds first); a hand without
      non-jokers counts as five jokers. */
  method CardCount(cards: string) returns (counts: multiset<char>)
    ensures |NonJokers(cards)| == 0 ==> counts == FIVE_JOKERS
    ensures |NonJokers(cards)| > 0 ==>
      exists k :: IsMaxCard(NonJokers(cards), k) &&
        counts == NonJokers(cards)[k := NonJokers(cards)[k] + multiset(cards)['J']]
    ensures |NonJokers(cards)| > 0 ==> |counts| == |cards|
    ensures Categorize(counts) == KindOf(cards)
  {
    counts := multiset{};
    var jokers: nat := 0;
    for i := 0 to |cards|
      invariant counts == NonJokers(cards[..i])
      invariant jokers == multiset(cards[..i])['J']
    {
      CountStep(cards, i);
      if cards[i] == 'J' {
        jokers := jokers + 1;
      } else {
        counts := counts + multiset{cards[i]};
      }
    }
    assert cards[..|cards|] == cards;
    if |counts| == 0 {
      counts := FIVE_JOKERS;
    } else {
      MaxCardExists(counts);
      var k :| IsMaxCard(counts, k);
      JokersJoin(cards, k);
      counts := counts[k := counts[k] + jokers];
    }
  }

  /** Counting one more card of the hand. */
  lemma CountStep(cards: string, i: nat)
    requires i < |cards|
    ensures NonJokers(cards[..i + 1]) == NonJokers(cards[..i]) + if cards[i] == 'J' then multiset{} else multiset{cards[i]}
    ensures multiset(cards[..i + 1])['J'] == multiset(cards[..i])['J'] + if cards[i] == 'J' then 1 else 0
  {
    assert cards[..i + 1] == cards[..i] + [cards[i]];
  }

  /** The jokers joining the largest group `k` give the hand all its cards
      and its kind. */
  lemma JokersJoin(cards: string, k: char)
    requires IsMaxCard(NonJokers(cards), k)
    ensures var base := NonJokers(cards); var counts := base[k := base[k] + multiset(cards)['J']];
      |counts| == |cards| && Categorize(counts) == KindOf(cards)
  {
    var base := NonJokers(cards);
    KindIgnoresChoice(base, k, MaxCardOf(base), multiset(cards)['J']);
  }

  /** A largest group, as a specification picks it. */
  ghost function MaxCardOf(counts: multiset<char>): (k: char)
    requires |counts| > 0
    ensures IsMaxCard(counts, k)
  {
    MaxCardExists(counts);
    var k :| IsMaxCard(counts, k); k
  }

  /** The kind of a hand with jokers. */
  ghost function KindOf(cards: string): HandKind
  {
    var base := NonJokers(cards);
    if |base| == 0 then Categorize(FIVE_JOKERS)
    else
      var k := MaxCardOf(base);
      Categorize(base[k := base[k] + multiset(cards)['J']])
  }

  // ---------------------------------------------------------------------
  // Classifying counts

  /** Some card occurs exactly `v` times (`counts.contains(&v)`). */
  predicate HasCount(counts: multiset<char>, v: nat)
  {
    exists c :: c in counts && counts[c] == v
  }

  /** How many cards occur exactly `v` times. */
  function CardsWithCount(counts: multiset<char>, v: nat): nat
  {
    |set c | c in counts && counts[c] == v|
  }

  /** `categorize`: the first kind whose test the counts pass. */
  function Categorize(counts: multiset<char>): (k: HandKind)
    ensures HasCount(counts, 5) ==> k == FiveOfAKind
    ensures k == FullHouse ==> HasCount(counts, 3) && HasCount(counts, 2)
    ensures k == HighCard <==> forall v :: 2 <= v <= 5 ==> !HasCount(counts, v)
  {
    HasCountIff(counts, 2);
    if HasCount(counts, 5) then FiveOfAKind
    else if HasCount(counts, 4) then FourOfAKind
    else if HasCount(counts, 3) && HasCount(counts, 2) then FullHouse
    else if HasCount(counts, 3) then ThreeOfAKind
    else if CardsWithCount(counts, 2) == 2 then TwoPair
    else if HasCount(counts, 2) then OnePair
    else HighCard
  }

  lemma HasCountIff(counts: multiset<char>, v: nat)
    ensures HasCount(counts, v) <==> CardsWithCount(counts, v) > 0
  {
    var s := set c | c in counts && counts[c] == v;
    if HasCount(counts, v) {
      var c :| c in counts && counts[c] == v;
      assert c in s;
    }
    if |s| > 0 {
      var c :| c in s;
    }
  }

  /** Two count tables with the same number of cards at each count of 2 to 5
      are classified alike. */
  lemma CategorizeByProfile(m1: multiset<char>, m2: multiset<char>)
    requires forall v :: 2 <= v <= 5 ==> CardsWithCount(m1, v) == CardsWithCount(m2, v)
    ensures Categorize(m1) == Categorize(m2)
  {
    forall v | 2 <= v <= 5 ensures HasCount(m1, v) == HasCount(m2, v) {
      HasCountIff(m1, v);
      HasCountIff(m2, v);
    }
  }

  /** Raising key `k` to `x` moves one card from count `m[k]` to count `x`. */
  lemma CardsWithCountUpdate(m: multiset<char>, k: char, x: nat, v: nat)
    requires k in m && x > 0
    ensures CardsWithCount(m[k := x], v)
      == CardsWithCount(m, v) - (if m[k] == v then 1 else 0) + (if x == v then 1 else 0)
  {
    var m' := m[k := x];
    var s := set c | c in m && m[c] == v;
    var s' := set c | c in m' && m'[c] == v;
    var rest := s - {k};
    forall c | c != k ensures (c in s' <==> c in rest) {
      assert m'[c] == m[c];
    }
    assert k in s' <==> x == v;
    assert k in s <==> m[k] == v;
    SetAround(s, rest, k);
    SetAround(s', rest, k);
  }

  /** A set is the part of it without `k`, plus `k` if it has it. */
  lemma SetAround(s: set<char>, rest: set<char>, k: char)
    requires k !in rest && forall c :: c != k ==> (c in s <==> c in rest)
    ensures |s| == |rest| + if k in s then 1 else 0
  {
    if k in s {
      assert s == rest + {k};
    } else {
      assert s == rest;
    }
  }

  /** The jokers may join any largest group: the kind is the same, so the
      arbitrary iteration order of the map does not matter. */
  lemma KindIgnoresChoice(base: multiset<char>, k1: char, k2: char, jokers: nat)
    requires IsMaxCard(base, k1) && IsMaxCard(base, k2)
    ensures Categorize(base[k1 := base[k1] + jokers]) == Categorize(base[k2 := base[k2] + jokers])
  {
    assert base[k1] == base[k2];
    var x := base[k1] + jokers;
    var m1, m2 := base[k1 := x], base[k2 := x];
    forall v | 2 <= v <= 5 ensures CardsWithCount(m1, v) == CardsWithCount(m2, v) {
      CardsWithCountUpdate(base, k1, x, v);
      CardsWithCountUpdate(base, k2, x, v);
    }
    CategorizeByProfile(m1, m2);
  }

  // ---------------------------------------------------------------------
  // Card values and the order on hands

  datatype Ordering = Less | Equal | Greater

  function Flip(o: Ordering): Ordering
  {
    match o
    case Less => Greater
    case Equal => Equal
    case Greater => Less
  }

  function CompareNat(x: nat, y: nat): (o: Ordering)
    ensures o == Less <==> x < y
    ensures o == Equal <==> x == y
    ensures o == Greater <==> x > y
  {
    if x < y then Less else if x == y then Equal else Greater
  }

  /** `get_card_value`: digits count their face value, T Q K A are 10 12 13
      14, and the joker J is 0; anything else is unreachable (`None`). */
  function CardValue(c: char): (v: Option<nat>)
    ensures v.Some? ==> v.value <= 14
    ensures IsPuzzleCard(c) ==> v.Some?
    ensures v == Some(0) <==> c == 'J' || c == '0'
  {
    if '0' <= c <= '9' then Some(c as nat - '0' as nat)
    else if c == 'T' then Some(10)
    else if c == 'J' then Some(0)
    else if c == 'Q' then Some(12)
    else if c == 'K' then Some(13)
    else if c == 'A' then Some(14)
    else None
  }

  /** The thirteen cards of the game: 2 to 9, T, J, Q, K and A. */
  predicate IsPuzzleCard(c: char)
  {
    '2' <= c <= '9' || c == 'T' || c == 'J' || c == 'Q' || c == 'K' || c == 'A'
  }

  /** Every card of the game has a value; the joker is the weakest card and
      no two cards share a value. */
  lemma CardValues(a: char, b: char)
    requires IsPuzzleCard(a) && IsPuzzleCard(b)
    ensures CardValue(a).Some? && CardValue(a).value <= 14
    ensures a != 'J' ==> CardValue(a).value > CardValue('J').value
    ensures CardValue(a) == CardValue(b) ==> a == b
  {
  }

  /** The card-by-card comparison of `cmp`: the first pair of cards with
      different values decides; running out of cards or meeting a character
      that is not a card is the panic (`None`). */
  function CompareCards(s: string, t: string): Option<Ordering>
  {
    if s == [] || t == [] then None
    else
      match CardValue(s[0])
      case None => None
      case Some(x) =>
        match CardValue(t[0])
        case None => None
        case Some(y) => if x != y then Some(CompareNat(x, y)) else CompareCards(s[1..], t[1..])
  }

  /** `Hand::cmp`: identical cards are equal; otherwise the kinds decide,
      and equal kinds fall through to the cards. */
  function CompareHands(a: Hand, b: Hand): Option<Ordering>
  {
    if a.cards == b.cards then Some(Equal)
    else if Rank(a.kind) != Rank(b.kind) then Some(CompareNat(Rank(a.kind), Rank(b.kind)))
    else CompareCards(a.cards, b.cards)
  }

  method Cmp(a: Hand, b: Hand) returns (r: Option<Ordering>)
    ensures r == CompareHands(a, b)
  {
    if a.cards == b.cards {
      return Some(Equal);
    }
    var candidate := CompareNat(Rank(a.kind), Rank(b.kind));
    var i := 0;
    while candidate == Equal
      invariant i <= |a.cards| && i <= |b.cards|
      invariant candidate == Equal ==> CompareHands(a, b) == CompareCards(a.cards[i..], b.cards[i..])
      invariant candidate != Equal ==> CompareHands(a, b) == Some(candidate)
      decreases |a.cards| - i
    {
      if i >= |a.cards| || i >= |b.cards| {
        return None;
      }
      var x := CardValue(a.cards[i]);
      if x.None? {
        return None;
      }
      var y := CardValue(b.cards[i]);
      if y.None? {
        return None;
      }
      assert a.cards[i..][1..] == a.cards[i + 1..] && b.cards[i..][1..] == b.cards[i + 1..];
      candidate := CompareNat(x.value, y.value);
      i := i + 1;
    }
    return Some(candidate);
  }

  /** A hand as dealt in the game: five cards of the game, and the kind
      `Hand::new` computes for them. */
  ghost predicate ValidHand(h: Hand)
  {
    |h.cards| == 5 && (forall i :: 0 <= i < 5 ==> IsPuzzleCard(h.cards[i])) && h.kind == KindOf(h.cards)
  }

  /** What the order compares: the kind's rank, then the card values. */
  function Key(h: Hand): seq<nat>
    requires forall i :: 0 <= i < |h.cards| ==> IsPuzzleCard(h.cards[i])
  {
    [Rank(h.kind)] + CardValueSeq(h.cards)
  }

  function CardValueSeq(s: string): (vs: seq<nat>)
    requires forall i :: 0 <= i < |s| ==> IsPuzzleCard(s[i])
    ensures |vs| == |s|
    ensures forall i :: 0 <= i < |s| ==> CardValue(s[i]) == Some(vs[i])
  {
    if s == [] then [] else
      CardValues(s[0], s[0]);
      [CardValue(s[0]).value] + CardValueSeq(s[1..])
  }

  /** Lexicographic order on sequences of equal length. */
  function Lex(xs: seq<nat>, ys: seq<nat>): Ordering
    requires |xs| == |ys|
  {
    if xs == [] then Equal
    else if xs[0] != ys[0] then CompareNat(xs[0], ys[0])
    else Lex(xs[1..], ys[1..])
  }

  lemma {:induction false} LexEqual(xs: seq<nat>, ys: seq<nat>)
    requires |xs| == |ys|
    ensures Lex(xs, ys) == Equal <==> xs == ys
  {
    if xs != [] && xs[0] == ys[0] {
      LexEqual(xs[1..], ys[1..]);
      assert xs == [xs[0]] + xs[1..] && ys == [ys[0]] + ys[1..];
    }
  }

  lemma {:induction false} LexFlip(xs: seq<nat>, ys: seq<nat>)
    requires |xs| == |ys|
    ensures Lex(ys, xs) == Flip(Lex(xs, ys))
  {
    if xs != [] && xs[0] == ys[0] {
      LexFlip(xs[1..], ys[1..]);
    }
  }

  lemma {:induction false} LexTransitive(xs: seq<nat>, ys: seq<nat>, zs: seq<nat>)
    requires |xs| == |ys| == |zs|
    requires Lex(xs, ys) != Greater && Lex(ys, zs) != Greater
    ensures Lex(xs, zs) != Greater
  {
    if xs != [] && xs[0] == ys[0] && ys[0] == zs[0] {
      LexTransitive(xs[1..], ys[1..], zs[1..]);
    }
  }

  /** On hands with cards of the game, comparing the cards is comparing
      their values. */
  lemma {:induction false} CompareCardsIsLex(s: string, t: string)
    requires |s| == |t| && s != t
    requires forall i :: 0 <= i < |s| ==> IsPuzzleCard(s[i]) && IsPuzzleCard(t[i])
    ensures CompareCards(s, t) == Some(Lex(CardValueSeq(s), CardValueSeq(t)))
    ensures Lex(CardValueSeq(s), CardValueSeq(t)) != Equal
  {
    CardValues(s[0], t[0]);
    if s[0] == t[0] {
      assert s == [s[0]] + s[1..] && t == [t[0]] + t[1..];
      CompareCardsIsLex(s[1..], t[1..]);
    }
  }

  /** On valid hands the order is the lexicographic order of the keys. */
  lemma CompareHandsIsLex(a: Hand, b: Hand)
    requires ValidHand(a) && ValidHand(b)
    ensures CompareHands(a, b) == Some(Lex(Key(a), Key(b)))
  {
    if a.cards == b.cards {
      LexEqual(Key(a), Key(b));
    } else if Rank(a.kind) == Rank(b.kind) {
      CompareCardsIsLex(a.cards, b.cards);
      assert Key(a)[1..] == CardValueSeq(a.cards) && Key(b)[1..] == CardValueSeq(b.cards);
    }
  }

  /** `cmp` is a total order on valid hands: it never panics, it says Equal
      exactly for identical cards, swapping the hands flips it, and it is
      transitive. */
  lemma CompareTotalOrder(a: Hand, b: Hand, c: Hand)
    requires ValidHand(a) && ValidHand(b) && ValidHand(c)
    ensures CompareHands(a, b).Some?
    ensures CompareHands(a, b) == Some(Equal) <==> a.cards == b.cards
    ensures CompareHands(b, a) == Some(Flip(CompareHands(a, b).value))
    ensures CompareHands(a, b) != Some(Greater) && CompareHands(b, c) != Some(Greater)
      ==> CompareHands(a, c) != Some(Greater)
  {
    CompareHandsIsLex(a, b);
    CompareHandsIsLex(b, a);
    CompareHandsIsLex(b, c);
    CompareHandsIsLex(a, c);
    LexFlip(Key(a), Key(b));
    if CompareHands(a, b) != Some(Greater) && CompareHands(b, c) != Some(Greater) {
      LexTransitive(Key(a), Key(b), Key(c));
    }
    if a.cards != b.cards && Rank(a.kind) == Rank(b.kind) {
      CompareCardsIsLex(a.cards, b.cards);
    }
  }

  // ---------------------------------------------------------------------
  // Sorting and the winnings

  /** No hand is followed by a weaker one. */
  ghost predicate Sorted(s: seq<Hand>)
  {
    forall i, j :: 0 <= i < j < |s| ==> CompareHands(s[i], s[j]) != Some(Greater)
  }

  ghost predicate AllValid(s: seq<Hand>)
  {
    forall i :: 0 <= i < |s| ==> ValidHand(s[i])
  }

  /** Inserts `h` after every hand that is not stronger than it, so hands
      that compare equal keep their input order, as the stable `sort` does. */
  function Insert(s: seq<Hand>, h: Hand): seq<Hand>
  {
    if s == [] then [h]
    else if CompareHands(s[|s| - 1], h) == Some(Greater) then Insert(s[..|s| - 1], h) + [s[|s| - 1]]
    else s + [h]
  }

  /** `hands.sort()`, as an insertion sort. */
  function SortHands(hands: seq<Hand>): seq<Hand>
  {
    if hands == [] then [] else Insert(SortHands(hands[..|hands| - 1]), hands[|hands| - 1])
  }

  lemma {:induction false} InsertSorted(s: seq<Hand>, h: Hand)
    requires Sorted(s) && AllValid(s) && ValidHand(h)
    ensures multiset(Insert(s, h)) == multiset(s) + multiset{h}
    ensures Sorted(Insert(s, h)) && AllValid(Insert(s, h))
    decreases |s|
  {
    if s != [] {
      var front, last := s[..|s| - 1], s[|s| - 1];
      SortedFront(s);
      if CompareHands(last, h) == Some(Greater) {
        InsertSorted(front, h);
        InsertBeforeLast(front, last, h, Insert(front, h));
      } else {
        AppendAfterLast(s, h);
      }
    }
  }

  lemma SortedFront(s: seq<Hand>)
    requires s != [] && Sorted(s) && AllValid(s)
    ensures Sorted(s[..|s| - 1]) && AllValid(s[..|s| - 1])
    ensures s == s[..|s| - 1] + [s[|s| - 1]]
  {
  }

  /** `h` goes before the stronger `last`: what precedes is not stronger
      than `last`. */
  lemma InsertBeforeLast(front: seq<Hand>, last: Hand, h: Hand, t: seq<Hand>)
    requires Sorted(front + [last]) && AllValid(front + [last]) && ValidHand(h)
    requires CompareHands(last, h) == Some(Greater)
    requires t == Insert(front, h)
    requires multiset(t) == multiset(front) + multiset{h} && Sorted(t) && AllValid(t)
    ensures Insert(front + [last], h) == t + [last]
    ensures multiset(Insert(front + [last], h)) == multiset(front + [last]) + multiset{h}
    ensures Sorted(t + [last]) && AllValid(t + [last])
  {
    var s := front + [last];
    assert s[..|s| - 1] == front && s[|s| - 1] == last;
    forall i | 0 <= i < |t| ensures CompareHands(t[i], last) != Some(Greater) {
      NotAboveLast(front, last, h, t, i);
    }
    SortedSnoc(t, last);
  }

  /** A hand of `t` is `h` or a hand of `front`; neither is stronger than
      `last`. */
  lemma NotAboveLast(front: seq<Hand>, last: Hand, h: Hand, t: seq<Hand>, i: nat)
    requires Sorted(front + [last]) && AllValid(front + [last]) && ValidHand(h)
    requires CompareHands(last, h) == Some(Greater)
    requires multiset(t) == multiset(front) + multiset{h} && i < |t|
    ensures CompareHands(t[i], last) != Some(Greater)
  {
    var s := front + [last];
    assert t[i] in multiset(t);
    if t[i] == h {
      assert s[|front|] == last;
      CompareTotalOrder(last, h, h);
    } else {
      assert t[i] in multiset(front);
      var j :| 0 <= j < |front| && front[j] == t[i];
      assert s[j] == t[i] && s[|front|] == last;
    }
  }

  /** A sorted sequence stays sorted with a hand added that none of its
      hands is stronger than. */
  lemma SortedSnoc(t: seq<Hand>, last: Hand)
    requires Sorted(t) && AllValid(t) && ValidHand(last)
    requires forall i :: 0 <= i < |t| ==> CompareHands(t[i], last) != Some(Greater)
    ensures Sorted(t + [last]) && AllValid(t + [last])
  {
    var u := t + [last];
    forall i, j | 0 <= i < j < |u| ensures CompareHands(u[i], u[j]) != Some(Greater) {
      assert u[i] == t[i];
    }
  }

  /** The hands of `s` holding exactly `cards`, in their order in `s`. */
  function WithCards(s: seq<Hand>, cards: string): (t: seq<Hand>)
    ensures |t| <= |s|
  {
    if s == [] then [] else WithCards(s[..|s| - 1], cards) + Own(s[|s| - 1], cards)
  }

  function Own(x: Hand, cards: string): seq<Hand>
  {
    if x.cards == cards then [x] else []
  }

  /** `Insert` passes only hands stronger than `h`, never one with the same
      cards, so `h` lands after every hand holding its cards. */
  lemma {:induction false} InsertStable(s: seq<Hand>, h: Hand, cards: string)
    ensures WithCards(Insert(s, h), cards) == WithCards(s, cards) + Own(h, cards)
    decreases |s|
  {
    if s == [] {
      WithCardsSnoc([], h, cards);
    } else if CompareHands(s[|s| - 1], h) == Some(Greater) {
      var front, last := s[..|s| - 1], s[|s| - 1];
      var t := Insert(front, h);
      assert Insert(s, h) == t + [last];
      InsertStable(front, h, cards);
      WithCardsSnoc(t, last, cards);
      assert WithCards(s, cards) == WithCards(front, cards) + Own(last, cards);
      SameCardsNotGreater(last, h);
      OwnCommute(WithCards(front, cards), Own(h, cards), Own(last, cards));
    } else {
      WithCardsSnoc(s, h, cards);
    }
  }

  lemma WithCardsSnoc(s: seq<Hand>, x: Hand, cards: string)
    ensures WithCards(s + [x], cards) == WithCards(s, cards) + Own(x, cards)
  {
    assert (s + [x])[..|s|] == s;
  }

  /** Hands holding the same cards compare equal. */
  lemma SameCardsNotGreater(a: Hand, b: Hand)
    requires CompareHands(a, b) == Some(Greater)
    ensures a.cards != b.cards
  {
  }

  lemma OwnCommute(before: seq<Hand>, mine: seq<Hand>, theirs: seq<Hand>)
    requires mine == [] || theirs == []
    ensures before + mine + theirs == before + theirs + mine
  {
  }

  /** The sort is stable: hands holding the same cards, which compare
      equal, keep their input order, so their ranks follow their order in
      the input. */
  lemma {:induction false} SortStable(hands: seq<Hand>, cards: string)
    ensures WithCards(SortHands(hands), cards) == WithCards(hands, cards)
  {
    if hands != [] {
      var front := hands[..|hands| - 1];
      SortStable(front, cards);
      InsertStable(SortHands(front), hands[|hands| - 1], cards);
    }
  }

  /** `h` is not weaker than the strongest hand of `s`, so it goes last. */
  lemma AppendAfterLast(s: seq<Hand>, h: Hand)
    requires s != [] && Sorted(s) && AllValid(s) && ValidHand(h)
    requires CompareHands(s[|s| - 1], h) != Some(Greater)
    ensures Insert(s, h) == s + [h]
    ensures Sorted(s + [h]) && AllValid(s + [h])
  {
    var last := s[|s| - 1];
    forall i | 0 <= i < |s| ensures CompareHands(s[i], h) != Some(Greater) {
      CompareTotalOrder(s[i], last, h);
      if i == |s| - 1 {
        CompareTotalOrder(last, last, h);
      }
    }
  }

  /** The sort returns the same hands, each weaker hand before a stronger. */
  lemma {:induction false} SortHandsSorted(hands: seq<Hand>)
    requires AllValid(hands)
    ensures multiset(SortHands(hands)) == multiset(hands)
    ensures Sorted(SortHands(hands)) && AllValid(SortHands(hands))
  {
    if hands != [] {
      var front, last := hands[..|hands| - 1], hands[|hands| - 1];
      assert hands == front + [last];
      assert AllValid(front) && ValidHand(last);
      assert SortHands(hands) == Insert(SortHands(front), last);
      SortHandsSorted(front);
      InsertSorted(SortHands(front), last);
    }
  }

  /** The bids weighted by rank: the weakest hand has rank 1. */
  function Winnings(sorted: seq<Hand>): nat
  {
    if sorted == [] then 0
    else Winnings(sorted[..|sorted| - 1]) + sorted[|sorted| - 1].bid * |sorted|
  }

  /** A prefix of the ranked hands wins no more than all of them. */
  lemma {:induction false} WinningsPrefix(sorted: seq<Hand>, i: nat)
    requires i <= |sorted|
    ensures Winnings(sorted[..i]) <= Winnings(sorted)
    decreases |sorted|
  {
    if i < |sorted| {
      var front := sorted[..|sorted| - 1];
      assert sorted[..i] == front[..i];
      WinningsPrefix(front, i);
    } else {
      assert sorted[..i] == sorted;
    }
  }

  /** `get_winnings`: the sum of bid times rank over the sorted hands, in a
      `u32` that must not overflow (`None` is the overflow panic). */
  method GetWinnings(hands: seq<Hand>) returns (r: Option<nat>)
    ensures var w := Winnings(SortHands(hands)); r == if w < U32_LIMIT then Some(w) else None
  {
    var sorted := SortHands(hands);
    var total: nat := 0;
    for i := 0 to |sorted|
      invariant total == Winnings(sorted[..i]) && total < U32_LIMIT
    {
      assert sorted[..i + 1][..i] == sorted[..i];
      WinningsPrefix(sorted, i + 1);
      var gain := sorted[i].bid * (i + 1);
      if gain >= U32_LIMIT || total + gain >= U32_LIMIT {
        return None;
      }
      total := total + gain;
    }
    assert sorted[..|sorted|] == sorted;
    return Some(total);
  }

  // ---------------------------------------------------------------------
  // Reading hands

  /** The panics of `read_hands` on a line: no card field (`parts[0]`), no
      bid field (`parts[1]`), or a bid that is not a `u32`. */
  datatype LineFault = MissingCards | MissingBid | BadBid
  datatype ReadError = ReadError(line: nat, fault: LineFault)

  /** The cards and the bid of one line. */
  function ParseHandLine(line: string): (r: Result<(string, nat), LineFault>)
    ensures r.Ok? ==> r.value.0 != [] && NoWhitespace(r.value.0) && r.value.1 < U32_LIMIT
  {
    var parts := SplitWhitespace(line);
    if |parts| == 0 then Err(MissingCards)
    else if |parts| == 1 then Err(MissingBid)
    else match ParseU32(parts[1])
      case None => Err(BadBid)
      case Some(bid) => Ok((parts[0], bid))
  }

  /** A line holding a hand and a bid parses back to them. */
  lemma ParseHandLineFormat(cards: string, bid: nat)
    requires cards != [] && NoWhitespace(cards) && bid < U32_LIMIT
    ensures ParseHandLine(cards + " " + ToDecimal(bid)) == Ok((cards, bid))
  {
    var digits := ToDecimal(bid);
    var tail := " " + digits;
    var line := cards + tail;
    assert cards + " " + digits == line;
    TokenLengthOfWord(cards, tail);
    assert line[..|cards|] == cards && line[|cards|..] == tail;
    assert SplitWhitespace(line) == [cards] + SplitWhitespace(tail);
    assert tail[1..] == digits;
    assert NoWhitespace(digits);
    TokenLengthOfWord(digits, []);
    assert digits + [] == digits && digits[..|digits|] == digits && digits[|digits|..] == [];
    assert SplitWhitespace(digits) == [digits];
    assert SplitWhitespace(line) == [cards, digits];
    ParseToDecimal(bid, U32_LIMIT);
  }

  /** The line `index` is the first that fails, and fails with `fault`. */
  predicate FirstBadLine(lines: seq<string>, e: ReadError)
  {
    e.line < |lines| && ParseHandLine(lines[e.line]) == Err(e.fault) &&
    forall j :: 0 <= j < e.line ==> ParseHandLine(lines[j]).Ok?
  }

  /** `read_hands`: one hand per line, its kind computed by `Hand::new`. */
  method ReadHands(input: string) returns (r: Result<seq<Hand>, ReadError>)
    ensures r.Ok? ==>
      |r.value| == |Lines(input)| &&
      forall i :: 0 <= i < |r.value| ==>
        ParseHandLine(Lines(input)[i]) == Ok((r.value[i].cards, r.value[i].bid)) &&
        r.value[i].kind == KindOf(r.value[i].cards)
    ensures r.Err? ==> FirstBadLine(Lines(input), r.error)
  {
    var lines := Lines(input);
    var hands: seq<Hand> := [];
    for i := 0 to |lines|
      invariant |hands| == i
      invariant forall j :: 0 <= j < i ==>
        ParseHandLine(lines[j]) == Ok((hands[j].cards, hands[j].bid)) && hands[j].kind == KindOf(hands[j].cards)
    {
      var parsed := ParseHandLine(lines[i]);
      if parsed.Err? {
        return Err(ReadError(i, parsed.error));
      }
      var (cards, bid) := parsed.value;
      var counts := CardCount(cards);
      hands := hands + [Hand(bid, cards, Categorize(counts))];
    }
    return Ok(hands);
  }

  // ---------------------------------------------------------------------
  // The hands of the unit tests

  /** A count table with a group of four, no group of five, is four of a kind. */
  lemma FourOfAKindCounts(m: multiset<char>, k: char)
    requires m[k] == 4 && forall c :: c in m && c != k ==> m[c] < 4
    ensures Categorize(m) == FourOfAKind
  {
    assert HasCount(m, 4);
  }

  /** A count table whose only group larger than one is the pair `p` is one pair. */
  lemma OnePairCounts(m: multiset<char>, p: char)
    requires m[p] == 2 && forall c :: c in m && c != p ==> m[c] < 2
    ensures Categorize(m) == OnePair
  {
    assert (set c | c in m && m[c] == 2) == {p};
    assert HasCount(m, 2);
  }

  /** A count table whose only groups larger than one are the pairs `p` and
      `q` is two pair. */
  lemma TwoPairCounts(m: multiset<char>, p: char, q: char)
    requires p != q && m[p] == 2 && m[q] == 2
    requires forall c :: c in m && c != p && c != q ==> m[c] < 2
    ensures Categorize(m) == TwoPair
  {
    assert (set c | c in m && m[c] == 2) == {p, q};
  }

  // The card counts of the example hands.

  lemma Counts32T3K()
    ensures NonJokers("32T3K") == multiset{'3', '3', '2', 'T', 'K'} && multiset("32T3K")['J'] == 0
  {
  }

  lemma CountsT55J5()
    ensures NonJokers("T55J5") == multiset{'T', '5', '5', '5'} && multiset("T55J5")['J'] == 1
  {
  }

  lemma CountsKK677()
    ensures NonJokers("KK677") == multiset{'K', 'K', '6', '7', '7'} && multiset("KK677")['J'] == 0
  {
  }

  lemma CountsKTJJT()
    ensures NonJokers("KTJJT") == multiset{'K', 'T', 'T'} && multiset("KTJJT")['J'] == 2
  {
  }

  lemma CountsQQQJA()
    ensures NonJokers("QQQJA") == multiset{'Q', 'Q', 'Q', 'A'} && multiset("QQQJA")['J'] == 1
  {
  }

  lemma NoJokerKindExample()
    ensures KindOf("32T3K") == OnePair
  {
    var cards := "32T3K";
    Counts32T3K();
    var base := NonJokers(cards);
    assert IsMaxCard(base, '3');
    JokersJoin(cards, '3');
    assert base['3' := base['3'] + 0] == base;
    OnePairCounts(base, '3');
  }

  /** The joker joins the three fives: four of a kind. */
  lemma JokerKindExample()
    ensures KindOf("T55J5") == FourOfAKind
  {
    var cards := "T55J5";
    CountsT55J5();
    var base := NonJokers(cards);
    assert IsMaxCard(base, '5');
    JokersJoin(cards, '5');
    FourOfAKindCounts(base['5' := 4], '5');
  }

  lemma TwoPairKindExample()
    ensures KindOf("KK677") == TwoPair
  {
    var cards := "KK677";
    CountsKK677();
    var base := NonJokers(cards);
    assert IsMaxCard(base, 'K');
    JokersJoin(cards, 'K');
    assert base['K' := base['K'] + 0] == base;
    TwoPairCounts(base, 'K', '7');
  }

  /** Both jokers join the two tens. */
  lemma TwoJokersKindExample()
    ensures KindOf("KTJJT") == FourOfAKind
  {
    var cards := "KTJJT";
    CountsKTJJT();
    var base := NonJokers(cards);
    assert IsMaxCard(base, 'T');
    JokersJoin(cards, 'T');
    FourOfAKindCounts(base['T' := 4], 'T');
  }

  lemma ThreeQueensKindExample()
    ensures KindOf("QQQJA") == FourOfAKind
  {
    var cards := "QQQJA";
    CountsQQQJA();
    var base := NonJokers(cards);
    assert IsMaxCard(base, 'Q');
    JokersJoin(cards, 'Q');
    FourOfAKindCounts(base['Q' := 4], 'Q');
  }

  /** The five hands of the unit tests, with the kinds `Hand::new` gives them. */
  const EXAMPLE_HANDS: seq<Hand> := [
    Hand(765, "32T3K", OnePair), Hand(684, "T55J5", FourOfAKind), Hand(28, "KK677", TwoPair),
    Hand(220, "KTJJT", FourOfAKind), Hand(483, "QQQJA", FourOfAKind)]

  lemma ExampleHand0Valid()
    ensures ValidHand(EXAMPLE_HANDS[0])
  {
    NoJokerKindExample();
  }

  lemma ExampleHand1Valid()
    ensures ValidHand(EXAMPLE_HANDS[1])
  {
    JokerKindExample();
  }

  lemma ExampleHand2Valid()
    ensures ValidHand(EXAMPLE_HANDS[2])
  {
    TwoPairKindExample();
  }

  lemma ExampleHand3Valid()
    ensures ValidHand(EXAMPLE_HANDS[3])
  {
    TwoJokersKindExample();
  }

  lemma ExampleHand4Valid()
    ensures ValidHand(EXAMPLE_HANDS[4])
  {
    ThreeQueensKindExample();
  }

  lemma ExampleHandValid(i: nat)
    requires i < |EXAMPLE_HANDS|
    ensures ValidHand(EXAMPLE_HANDS[i])
  {
    if i == 0 {
      ExampleHand0Valid();
    } else if i == 1 {
      ExampleHand1Valid();
    } else if i == 2 {
      ExampleHand2Valid();
    } else if i == 3 {
      ExampleHand3Valid();
    } else {
      ExampleHand4Valid();
    }
  }

  lemma ExampleHandsValid()
    ensures AllValid(EXAMPLE_HANDS)
  {
    forall i | 0 <= i < |EXAMPLE_HANDS| ensures ValidHand(EXAMPLE_HANDS[i]) {
      ExampleHandValid(i);
    }
  }

  /** The comparisons the insertion sort makes on the example hands. */
  lemma ExampleComparisons()
    ensures CompareHands(EXAMPLE_HANDS[1], EXAMPLE_HANDS[2]) == Some(Greater)
    ensures CompareHands(EXAMPLE_HANDS[0], EXAMPLE_HANDS[2]) == Some(Less)
    ensures CompareHands(EXAMPLE_HANDS[0], EXAMPLE_HANDS[1]) == Some(Less)
    ensures CompareHands(EXAMPLE_HANDS[1], EXAMPLE_HANDS[3]) == Some(Less)
    ensures CompareHands(EXAMPLE_HANDS[3], EXAMPLE_HANDS[4]) == Some(Greater)
    ensures CompareHands(EXAMPLE_HANDS[1], EXAMPLE_HANDS[4]) == Some(Less)
  {
  }

  /** Sorting the first three example hands moves the two pair below the four of a kind. */
  lemma ExampleSortedPrefix()
    ensures SortHands(EXAMPLE_HANDS[..3]) == [EXAMPLE_HANDS[0], EXAMPLE_HANDS[2], EXAMPLE_HANDS[1]]
  {
    var h := EXAMPLE_HANDS;
    ExampleComparisons();
    assert SortHands(h[..1]) == [h[0]] by {
      assert h[..1][..0] == [];
    }
    assert SortHands(h[..2]) == [h[0], h[1]] by {
      assert h[..2][..1] == h[..1];
    }
    assert h[..3][..2] == h[..2];
    assert [h[0], h[1]][..1] == [h[0]];
    assert Insert([h[0]], h[2]) == [h[0], h[2]];
    assert Insert([h[0], h[1]], h[2]) == [h[0], h[2]] + [h[1]];
  }

  /** Sorted, the example hands read 32T3K, KK677, T55J5, QQQJA, KTJJT. */
  lemma ExampleSorted()
    ensures SortHands(EXAMPLE_HANDS) ==
      [EXAMPLE_HANDS[0], EXAMPLE_HANDS[2], EXAMPLE_HANDS[1], EXAMPLE_HANDS[4], EXAMPLE_HANDS[3]]
  {
    var h := EXAMPLE_HANDS;
    ExampleComparisons();
    ExampleSortedPrefix();
    assert SortHands(h[..4]) == [h[0], h[2], h[1], h[3]] by {
      assert h[..4][..3] == h[..3];
    }
    assert h[..5] == h && h[..4] == h[..5][..4];
    assert [h[0], h[2], h[1], h[3]][..3] == [h[0], h[2], h[1]];
    assert Insert([h[0], h[2], h[1]], h[4]) == [h[0], h[2], h[1], h[4]];
    assert Insert([h[0], h[2], h[1], h[3]], h[4]) == [h[0], h[2], h[1], h[4]] + [h[3]];
  }

  /** With the bids in sorted order 765, 28, 684, 483, 220, the winnings are 5905. */
  lemma ExampleWinnings()
    ensures Winnings(SortHands(EXAMPLE_HANDS)) == 5905
  {
    ExampleSorted();
    var h := EXAMPLE_HANDS;
    var sorted := [h[0], h[2], h[1], h[4], h[3]];
    assert Winnings(sorted[..1]) == 765 by { assert sorted[..1][..0] == []; }
    assert Winnings(sorted[..2]) == 765 + 28 * 2 by { assert sorted[..2][..1] == sorted[..1]; }
    assert Winnings(sorted[..3]) == 2873 by { assert sorted[..3][..2] == sorted[..2]; }
    assert Winnings(sorted[..4]) == 4805 by { assert sorted[..4][..3] == sorted[..3]; }
    assert sorted[..5] == sorted && sorted[..4] == sorted[..|sorted| - 1];
  }
}
