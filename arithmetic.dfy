/** Integer facts shared by the solvers: Euclidean division, and the
    greatest common divisor and least common multiple that day 8 reduces
    its cycle lengths with. */
module Arithmetic {

  lemma MulSign(k: int, d: int)
    requires d > 0
    ensures k >= 1 ==> k * d >= d
    ensures k <= -1 ==> k * d <= -d
  {
  }

  /** Quotient and remainder are the unique pair with `x == q * d + r`. */
  lemma ModOf(x: int, d: int, q: int, r: int)
    requires d > 0 && 0 <= r < d && x == q * d + r
    ensures x % d == r && x / d == q
  {
    var q', r' := x / d, x % d;
    assert (q - q') * d == q * d - q' * d;
    MulSign(q - q', d);
  }

  /** Stepping an index modulo `d` agrees with reducing the step count. */
  lemma ModSucc(n: nat, d: nat)
    requires d > 0
    ensures (n % d + 1) % d == (n + 1) % d
  {
    var q, r := n / d, n % d;
    if r + 1 < d { ModOf(n + 1, d, q, r + 1); } else { ModOf(n + 1, d, q + 1, 0); }
  }

  lemma ModPeriod(n: nat, d: nat)
    requires d > 0
    ensures (n + d) % d == n % d
  {
    ModOf(n + d, d, n / d + 1, n % d);
  }

  /** Products that the divisibility proofs rearrange. */
  lemma MulAssoc(x: int, y: int, z: int)
    ensures x * (y * z) == (x * y) * z
  {
  }

  lemma MulComm(x: int, y: int)
    ensures x * y == y * x
  {
  }

  lemma MulDistrib(x: int, y: int, z: int)
    ensures x * (y + z) == x * y + x * z
    ensures (y + z) * x == y * x + z * x
  {
  }

  lemma MulCancel(x: int, y: int, d: int)
    requires d > 0 && x * d == y * d
    ensures x == y
  {
    MulDistrib(d, x, -y);
    MulSign(x - y, d);
  }

  // ---------------------------------------------------------------------
  // Divisibility

  /** `d` divides `n` (zero divides only zero). */
  predicate Divides(d: nat, n: nat)
  {
    if d == 0 then n == 0 else n % d == 0
  }

  lemma DividesByWitness(d: nat, n: nat, k: int)
    requires n == d * k
    ensures Divides(d, n)
  {
    if d > 0 {
      if k < 0 { MulSign(k, d); }
      ModOf(n, d, k, 0);
    }
  }

  lemma DividesWitness(d: nat, n: nat) returns (k: nat)
    requires Divides(d, n)
    ensures n == d * k
  {
    if d == 0 {
      k := 0;
    } else {
      k := n / d;
    }
  }

  /** A divisor of a positive number is at most that number. */
  lemma DividesBound(d: nat, n: nat)
    requires Divides(d, n) && n > 0
    ensures 0 < d <= n
  {
    var k := DividesWitness(d, n);
    MulSign(k, d);
  }

  lemma DividesTransitive(a: nat, b: nat, c: nat)
    requires Divides(a, b) && Divides(b, c)
    ensures Divides(a, c)
  {
    var k := DividesWitness(a, b);
    var l := DividesWitness(b, c);
    MulAssoc(a, k, l);
    DividesByWitness(a, c, k * l);
  }

  /** A common divisor of `x` and `y` divides `x * q + y`. */
  lemma DividesCombination(d: nat, x: nat, y: nat, q: int)
    requires Divides(d, x) && Divides(d, y) && x * q + y >= 0
    ensures Divides(d, x * q + y)
  {
    var s := DividesWitness(d, x);
    var t := DividesWitness(d, y);
    MulAssoc(d, s, q);
    MulDistrib(d, s * q, t);
    DividesByWitness(d, x * q + y, s * q + t);
  }

  // ---------------------------------------------------------------------
  // Greatest common divisor (Euclid) and Bezout coefficients

  function Gcd(a: nat, b: nat): (g: nat)
    ensures a > 0 || b > 0 ==> g > 0
    decreases b
  {
    if b == 0 then a else Gcd(b, a % b)
  }

  /** The gcd divides both arguments. */
  lemma {:induction false} GcdDivides(a: nat, b: nat)
    ensures Divides(Gcd(a, b), a) && Divides(Gcd(a, b), b)
    decreases b
  {
    if b > 0 {
      GcdDivides(b, a % b);
      assert a == b * (a / b) + a % b;
      DividesCombination(Gcd(a, b), b, a % b, a / b);
    } else if a > 0 {
      ModOf(a, a, 1, 0);
    }
  }

  /** Coefficients `(x, y)` with `x * a + y * b == Gcd(a, b)`. */
  function Bezout(a: nat, b: nat): (c: (int, int))
    ensures c.0 * a + c.1 * b == Gcd(a, b)
    decreases b
  {
    if b == 0 then (1, 0)
    else
      var (x, y) := Bezout(b, a % b);
      BezoutStep(a, b, x, y);
      (y, x - y * (a / b))
  }

  lemma BezoutStep(a: nat, b: nat, x: int, y: int)
    requires b > 0
    ensures x * b + y * (a % b) == y * a + (x - y * (a / b)) * b
  {
    var q, r := a / b, a % b;
    assert a == b * q + r;
    MulDistrib(y, b * q, r);
    MulAssoc(y, b, q);
    MulComm(y * b, q);
    MulDistrib(b, x, -(y * q));
    MulComm(b, x - y * q);
    MulAssoc(y, q, b);
    MulComm(y * q, b);
    MulComm(y, b);
  }

  /** Every common divisor divides the gcd, which is therefore the greatest. */
  lemma GcdGreatest(a: nat, b: nat, d: nat)
    requires Divides(d, a) && Divides(d, b)
    ensures Divides(d, Gcd(a, b))
  {
    var (x, y) := Bezout(a, b);
    var s := DividesWitness(d, a);
    var t := DividesWitness(d, b);
    MulAssoc(x, d, s);
    MulAssoc(y, d, t);
    MulComm(x, d);
    MulComm(y, d);
    MulAssoc(d, x, s);
    MulAssoc(d, y, t);
    MulDistrib(d, x * s, y * t);
    DividesByWitness(d, Gcd(a, b), x * s + y * t);
  }

  // ---------------------------------------------------------------------
  // Least common multiple

  /** `lcm` as the `num` crate computes it: `a * (b / gcd(a, b))`, and 0 when
      both are 0. */
  function Lcm(a: nat, b: nat): nat
  {
    if a == 0 && b == 0 then 0
    else
      var q := b / Gcd(a, b);
      MulNat(a, q);
      a * q
  }

  lemma MulNat(x: nat, y: nat)
    ensures x * y >= 0
  {
  }

  /** Both arguments divide their lcm. */
  lemma LcmCommonMultiple(a: nat, b: nat)
    ensures Divides(a, Lcm(a, b)) && Divides(b, Lcm(a, b))
  {
    if a > 0 || b > 0 {
      var g := Gcd(a, b);
      GcdDivides(a, b);
      var a1 := DividesWitness(g, a);
      var b1 := DividesWitness(g, b);
      assert b / g == b1 by { ModOf(b, g, b1, 0); }
      DividesByWitness(a, Lcm(a, b), b1);
      MulAssoc(g, a1, b1);
      MulComm(a1, b1);
      MulAssoc(g, b1, a1);
      DividesByWitness(b, Lcm(a, b), a1);
    }
  }

  /** The lcm divides every common multiple of its positive arguments. */
  lemma LcmLeast(a: nat, b: nat, m: nat)
    requires a > 0 && b > 0 && Divides(a, m) && Divides(b, m)
    ensures Divides(Lcm(a, b), m)
  {
    var g := Gcd(a, b);
    GcdDivides(a, b);
    var a1 := DividesWitness(g, a);
    var b1 := DividesWitness(g, b);
    assert b / g == b1 by { ModOf(b, g, b1, 0); }
    var s := DividesWitness(a, m);
    var t := DividesWitness(b, m);
    var (x, y) := Bezout(a, b);
    var k := x * t + y * s;
    // m * g == m * (x * a + y * b) == a * b * k, and a * b == g * Lcm(a, b)
    LcmTimesGcd(m, g, a, b, a1, b1, s, t, x, y);
    MulCancel(m, Lcm(a, b) * k, g);
    if k < 0 { MulSign(k, Lcm(a, b)); MulComm(k, Lcm(a, b)); }
    DividesByWitness(Lcm(a, b), m, k);
  }

  lemma LcmTimesGcd(m: nat, g: nat, a: nat, b: nat, a1: nat, b1: nat, s: nat, t: nat, x: int, y: int)
    requires g > 0 && a == g * a1 && b == g * b1 && m == a * s && m == b * t
    requires x * a + y * b == g
    ensures m * g == (a * b1) * (x * t + y * s) * g
  {
    calc {
      m * g;
      { MulDistrib(m, x * a, y * b); }
      m * (x * a) + m * (y * b);
      { MulAssoc(m, x, a); MulComm(m, x); MulAssoc(x, m, a); MulAssoc(m, y, b); MulComm(m, y); MulAssoc(y, m, b); }
      x * (m * a) + y * (m * b);
      { assert m * a == (b * t) * a; assert m * b == (a * s) * b; }
      x * ((b * t) * a) + y * ((a * s) * b);
      { RearrangeBezoutTerms(a, b, g, b1, x, y, s, t); }
      (a * b1) * (x * t + y * s) * g;
    }
  }

  lemma RearrangeBezoutTerms(a: int, b: int, g: int, b1: int, x: int, y: int, s: int, t: int)
    requires b == g * b1
    ensures x * ((b * t) * a) + y * ((a * s) * b) == (a * b1) * (x * t + y * s) * g
  {
    assert x * ((b * t) * a) == (a * b) * (x * t);
    assert y * ((a * s) * b) == (a * b) * (y * s);
    MulDistrib(a * b, x * t, y * s);
    assert a * b == (a * b1) * g;
    MulAssoc(a * b1, g, x * t + y * s);
    MulComm(g, x * t + y * s);
    MulAssoc(a * b1, x * t + y * s, g);
  }

  lemma LcmPositive(a: nat, b: nat)
    requires a > 0 && b > 0
    ensures Lcm(a, b) > 0
  {
    LcmCommonMultiple(a, b);
    var g := Gcd(a, b);
    GcdDivides(a, b);
    DividesBound(g, b);
    var b1 := DividesWitness(g, b);
    assert b / g == b1 by { ModOf(b, g, b1, 0); }
    MulSign(b1, g);
    MulSign(b1, a);
    MulComm(a, b1);
  }

  lemma DividesRefl(x: nat)
    ensures Divides(x, x)
  {
    if x > 0 { ModOf(x, x, 1, 0); }
  }

  /** The lcm of a non-empty list, folded from the left. */
  function LcmAll(xs: seq<nat>): nat
    requires |xs| > 0
  {
    if |xs| == 1 then xs[0] else Lcm(LcmAll(xs[..|xs| - 1]), xs[|xs| - 1])
  }

  /** Every element divides the lcm of the list. */
  lemma {:induction false} LcmAllCommonMultiple(xs: seq<nat>)
    requires |xs| > 0
    ensures forall i :: 0 <= i < |xs| ==> Divides(xs[i], LcmAll(xs))
  {
    if |xs| == 1 {
      DividesRefl(xs[0]);
    } else {
      var front, last := xs[..|xs| - 1], xs[|xs| - 1];
      LcmAllCommonMultiple(front);
      LcmCommonMultiple(LcmAll(front), last);
      forall i | 0 <= i < |xs| ensures Divides(xs[i], LcmAll(xs)) {
        if i < |front| {
          assert xs[i] == front[i];
          DividesTransitive(xs[i], LcmAll(front), LcmAll(xs));
        }
      }
    }
  }

  /** The lcm of positive numbers is positive. */
  lemma {:induction false} LcmAllPositive(xs: seq<nat>)
    requires |xs| > 0 && forall i :: 0 <= i < |xs| ==> xs[i] > 0
    ensures LcmAll(xs) > 0
  {
    if |xs| > 1 {
      LcmAllPositive(xs[..|xs| - 1]);
      LcmPositive(LcmAll(xs[..|xs| - 1]), xs[|xs| - 1]);
    }
  }

  /** The lcm of positive numbers divides each of their common multiples. */
  lemma {:induction false} LcmAllLeast(xs: seq<nat>, m: nat)
    requires |xs| > 0 && forall i :: 0 <= i < |xs| ==> xs[i] > 0
    requires forall i :: 0 <= i < |xs| ==> Divides(xs[i], m)
    ensures Divides(LcmAll(xs), m)
  {
    if |xs| > 1 {
      var front := xs[..|xs| - 1];
      LcmAllLeast(front, m);
      LcmAllPositive(front);
      LcmLeast(LcmAll(front), xs[|xs| - 1], m);
    }
  }
}
