/** Day 4, part 1: a card scores 2^(k-1) points for k matching numbers
    (`Card::calculate_points` in day4p1.rs), computed in `u32`. */
module Day4Part1 {
  import opened Common
  import opened Text
  import opened Day4Cards

  function Pow2(n: nat): (p: nat)
    ensures p >= 1
  {
    if n == 0 then 1 else 2 * Pow2(n - 1)
  }

  /** Powers of two below the 32nd fit a `u32`; from the 32nd on they do
      not. */
  lemma {:induction false} Pow2Fits(n: nat)
    ensures Pow2(n) < U32_LIMIT <==> n < 32
  {
    if n < 32 {
      Pow2Below(n);
    } else {
      Pow2Above(n);
    }
  }

  lemma Pow2Below(n: nat)
    requires n < 32
    ensures Pow2(n) <= 0x8000_0000
  {
    Pow2Grows(n, 31);
    Pow2Of31();
  }

  lemma {:induction false} Pow2Grows(m: nat, n: nat)
    requires m <= n
    ensures Pow2(m) <= Pow2(n)
    decreases n - m
  {
    if m < n {
      Pow2Grows(m, n - 1);
    }
  }

  lemma Pow2Above(n: nat)
    requires n >= 32
    ensures Pow2(n) >= U32_LIMIT
  {
    Pow2Grows(32, n);
    Pow2Of31();
  }

  lemma Pow2Of31()
    ensures Pow2(31) == 0x8000_0000
  {
    assert Pow2(8) == 256;
    assert Pow2(7) == 128;
    Pow2Add(8, 7);
    Pow2Add(8, 8);
    Pow2Add(16, 15);
  }

  lemma {:induction false} Pow2Add(m: nat, n: nat)
    ensures Pow2(m + n) == Pow2(m) * Pow2(n)
  {
    if n > 0 {
      Pow2Add(m, n - 1);
    }
  }

  /** The points for `k` matches. The count is cast `as u32`, so it is taken
      modulo 2^32; a zero exponent scores nothing; otherwise the score is
      2^(exp-1), and a power past `u32::MAX` is the overflow panic of
      `pow`, here `None`. */
  function PointsFor(k: nat): (r: Option<nat>)
    ensures r.Some? ==> r.value < U32_LIMIT
  {
    var exp := k % U32_LIMIT;
    if exp == 0 then Some(0)
    else if Pow2(exp - 1) < U32_LIMIT then Some(Pow2(exp - 1))
    else None
  }

  function CalculatePoints(c: Card): (r: Option<nat>)
    ensures r.Some? ==> r.value < U32_LIMIT
  {
    PointsFor(Matches(c))
  }

  /** A card sharing no number with the winning numbers scores nothing; one
      with matches (fewer than 2^32 of them) scores at least one point. */
  lemma PointsZeroIff(c: Card)
    ensures c.winning * c.numbers == {} ==> CalculatePoints(c) == Some(0)
    ensures Matches(c) < U32_LIMIT ==>
      (CalculatePoints(c) == Some(0) <==> c.winning * c.numbers == {})
  {
  }

  /** The score is defined exactly when the truncated match count is at most
      32: from 33 matches on, `pow` overflows. */
  lemma PointsOverflow(k: nat)
    ensures PointsFor(k).None? <==> 33 <= k % U32_LIMIT
    ensures 1 <= k <= 32 ==> PointsFor(k) == Some(Pow2(k - 1))
  {
    if k % U32_LIMIT != 0 {
      Pow2Fits(k % U32_LIMIT - 1);
    }
  }

  /** Each further match doubles the score, up to 32 matches; the 33rd
      match overflows. */
  lemma PointsDouble(k: nat)
    requires k >= 1
    ensures k < 32 ==> PointsFor(k).Some? && PointsFor(k + 1) == Some(2 * PointsFor(k).value)
    ensures k == 32 ==> PointsFor(k).Some? && PointsFor(k + 1).None?
  {
    PointsOverflow(k);
    PointsOverflow(k + 1);
  }

  /** Below 2^32 matches, more matches never score less, and once the score
      overflows it stays overflowed. */
  lemma {:induction false} PointsMonotone(k1: nat, k2: nat)
    requires k1 <= k2
    ensures k2 < U32_LIMIT && PointsFor(k2).Some? ==>
      PointsFor(k1).Some? && PointsFor(k1).value <= PointsFor(k2).value
    ensures k2 < U32_LIMIT && PointsFor(k1).None? ==> PointsFor(k2).None?
  {
    PointsOverflow(k1);
    PointsOverflow(k2);
    if 1 <= k1 && k2 <= 32 {
      Pow2Grows(k1 - 1, k2 - 1);
    }
  }

  /** The cards of the unit test score 8, 2, 2, 1, 0 and 0. */
  lemma ExamplePoints(i: nat)
    requires i < |EXAMPLE_CARDS|
    ensures CalculatePoints(EXAMPLE_CARDS[i]) == Some([8, 2, 2, 1, 0, 0][i])
  {
    var k := Matches(EXAMPLE_CARDS[i]);
    ExampleMatches(i);
    assert k == [4, 2, 2, 1, 0, 0][i];
    PointsOverflow(k);
    assert Pow2(3) == 8;
  }
}
