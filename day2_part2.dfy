/** Day 2, part 2: the power of a game is the product of its per-colour
    maxima, the fewest cubes of each colour that make the game possible
    (`compute_power` in day2p2.rs). */
module Day2Part2 {
  import opened Common
  import opened Text
  import opened Day2Cubes

  /** `max_red * max_green * max_blue` in `i32`, left to right; `None` when
      either multiplication overflows (the panic). */
  function Power(m: Maxima): (r: Option<int>)
    ensures r.Some? ==> r.value == m.red * m.green * m.blue && FitsI32(r.value)
    ensures r.None? <==> !FitsI32(m.red * m.green) || !FitsI32(m.red * m.green * m.blue)
  {
    var rg := m.red * m.green;
    if !FitsI32(rg) then None
    else if !FitsI32(rg * m.blue) then None
    else Some(rg * m.blue)
  }

  /** `compute_power`: the running maxima of the line, then their product. */
  method ComputePower(line: string) returns (r: Option<int>)
    ensures r == Power(MaximaOf(Parse(Rolls(line))))
  {
    var m := ComputeMaxima(line);
    var rg := m.red * m.green;
    if !FitsI32(rg) {
      return None;
    }
    var p := rg * m.blue;
    if !FitsI32(p) {
      return None;
    }
    return Some(p);
  }

  /** A bag holds enough cubes for every roll. */
  predicate Admits(bag: Maxima, ps: seq<Option<Roll>>)
  {
    forall k :: 0 <= k < |ps| ==>
      CountOf(ps[k], "red") <= bag.red && CountOf(ps[k], "green") <= bag.green && CountOf(ps[k], "blue") <= bag.blue
  }

  /** The maxima are the smallest bag admitting every roll: they admit
      them, and every bag that does (with no negative count) holds at least
      as many of each colour, hence has at least the same power. */
  lemma MaximaSmallestBag(ps: seq<Option<Roll>>, bag: Maxima)
    ensures Admits(MaximaOf(ps), ps)
    ensures MaximaOf(ps).red >= 0 && MaximaOf(ps).green >= 0 && MaximaOf(ps).blue >= 0
    ensures bag.red >= 0 && bag.green >= 0 && bag.blue >= 0 && Admits(bag, ps) ==>
      MaximaOf(ps).red <= bag.red && MaximaOf(ps).green <= bag.green && MaximaOf(ps).blue <= bag.blue &&
      MaximaOf(ps).red * MaximaOf(ps).green * MaximaOf(ps).blue <= bag.red * bag.green * bag.blue
  {
    var m := MaximaOf(ps);
    MaximaSpec(ps, "red");
    MaximaSpec(ps, "green");
    MaximaSpec(ps, "blue");
    if bag.red >= 0 && bag.green >= 0 && bag.blue >= 0 && Admits(bag, ps) {
      assert m.red <= bag.red && m.green <= bag.green && m.blue <= bag.blue;
      ProductMono(m.red, m.green, m.blue, bag.red, bag.green, bag.blue);
    }
  }

  lemma ProductMono(a: nat, b: nat, c: nat, x: nat, y: nat, z: nat)
    requires a <= x && b <= y && c <= z
    ensures a * b * c <= x * y * z
  {
    assert a * b <= x * b <= x * y by {
      MulLeft(a, x, b);
      MulLeft(b, y, x);
    }
    MulLeft(a * b, x * y, c);
    MulLeft(c, z, x * y);
  }

  lemma MulLeft(a: nat, b: nat, c: nat)
    requires a <= b
    ensures a * c <= b * c && c * a <= c * b
  {
  }

  /** No roll names the colour with a positive count. */
  predicate Absent(ps: seq<Option<Roll>>, colour: string)
  {
    forall k :: 0 <= k < |ps| ==> CountOf(ps[k], colour) <= 0
  }

  /** A colour that never shows leaves its maximum at 0 and the power at 0;
      only a missing blue comes after a multiplication that can still
      overflow. */
  lemma AbsentColour(ps: seq<Option<Roll>>)
    ensures Absent(ps, "red") || Absent(ps, "green") ==> Power(MaximaOf(ps)) == Some(0)
    ensures Absent(ps, "blue") ==>
      Power(MaximaOf(ps)) == if FitsI32(MaximaOf(ps).red * MaximaOf(ps).green) then Some(0) else None
  {
    var m := MaximaOf(ps);
    MaximaSpec(ps, "red");
    MaximaSpec(ps, "green");
    MaximaSpec(ps, "blue");
    if Absent(ps, "red") {
      assert m.red == 0;
    }
    if Absent(ps, "green") {
      assert m.green == 0;
    }
    if Absent(ps, "blue") {
      assert m.blue == 0;
    }
  }

  /** The unit test: powers 48, 12, 1560, 630 and 36. */
  lemma ExamplePowers(i: nat)
    requires i < 5
    ensures |EXAMPLE_GAMES| == 5
    ensures Power(MaximaOf(Parse(Rolls(GameText(EXAMPLE_GAMES[i]))))) == Some([48, 12, 1560, 630, 36][i])
  {
    ExampleMaxima(i);
    var m := EXAMPLE_MAXIMA[i];
    var p := [48, 12, 1560, 630, 36][i];
    if i == 0 {
      assert m == Maxima(4, 2, 6) && p == 48;
    } else if i == 1 {
      assert m == Maxima(1, 3, 4) && p == 12;
    } else if i == 2 {
      assert m == Maxima(20, 13, 6) && p == 1560;
    } else if i == 3 {
      assert m == Maxima(14, 3, 15) && p == 630;
    } else {
      assert m == Maxima(6, 3, 2) && p == 36;
    }
    assert Power(m) == Some(p);
  }
}
