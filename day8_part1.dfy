/** Day 8, part 1: walk the desert map from `AAA` to `ZZZ`
    (`follow_instructions` in day8p1.rs). */
module Day8Part1 {
  import opened Common
  import opened Text
  import opened Day8Graph

  /** The step counter is a `u32`. */
  const MAX_STEPS: nat := U32_LIMIT - 1

  function IsEnd(node: string): bool
  {
    node == "ZZZ"
  }

  /** What the solver answers for `input`: no first line is an error; a
      malformed declaration line is an error naming the first one; otherwise
      the walk from `AAA` under the first line's directions decides. */
  predicate Answer(input: string, r: Result<nat, WalkError>)
  {
    var lines := Lines(input);
    if lines == [] then r == Err(NoInput)
    else
      match ParseAll(DeclarationLines(lines))
      case None => r.Err? && r.error.MalformedLine? && FirstMalformed(DeclarationLines(lines), r.error.index)
      case Some(ds) => WalkOutcome(GraphOf(ds), lines[0], "AAA", IsEnd, MAX_STEPS, r)
  }

  method FollowInstructions(input: string) returns (r: Result<nat, WalkError>)
    ensures Answer(input, r)
  {
    var lines := Lines(input);
    if |lines| == 0 {
      return Err(NoInput);
    }
    var directions := lines[0];
    var built := BuildGraph(DeclarationLines(lines));
    if built.Err? {
      return Err(built.error);
    }
    r := CountSteps(built.value, directions, "AAA", IsEnd, MAX_STEPS);
  }

  /** `Answer` determines the result, answer or error. */
  lemma AnswerUnique(input: string, r1: Result<nat, WalkError>, r2: Result<nat, WalkError>)
    requires Answer(input, r1) && Answer(input, r2)
    ensures r1 == r2
  {
    var lines := Lines(input);
    if lines != [] {
      var decl := DeclarationLines(lines);
      match ParseAll(decl)
      case None =>
        FirstMalformedUnique(decl, r1.error.index, r2.error.index);
      case Some(ds) =>
        WalkOutcomeUnique(GraphOf(ds), lines[0], "AAA", IsEnd, MAX_STEPS, r1, r2);
    }
  }

  // ---------------------------------------------------------------------
  // The two maps of the unit tests

  function D(name: string, left: string, right: string): Declaration
  {
    Declaration(name, Destination(left, right))
  }

  const LINEAR_MAP: seq<Declaration> := [
    D("AAA", "BBB", "CCC"), D("BBB", "DDD", "EEE"), D("CCC", "ZZZ", "GGG"), D("DDD", "DDD", "DDD"),
    D("EEE", "EEE", "EEE"), D("GGG", "GGG", "GGG"), D("ZZZ", "ZZZ", "ZZZ")]

  const REPEATING_MAP: seq<Declaration> := [D("AAA", "BBB", "BBB"), D("BBB", "AAA", "ZZZ"), D("ZZZ", "ZZZ", "ZZZ")]

  /** The test maps are written with labels, so their lines parse back. */
  lemma LinearMapParses()
    ensures ParseAll(FormatAll(LINEAR_MAP)) == Some(LINEAR_MAP)
  {
    ParseFormatAll(LINEAR_MAP);
  }

  lemma RepeatingMapParses()
    ensures ParseAll(FormatAll(REPEATING_MAP)) == Some(REPEATING_MAP)
  {
    ParseFormatAll(REPEATING_MAP);
  }

  /** `RL` on the linear map: AAA, CCC, ZZZ — two steps. */
  lemma LinearMapExample()
    ensures WalkOutcome(GraphOf(LINEAR_MAP), "RL", "AAA", IsEnd, MAX_STEPS, Ok(2))
  {
    var g := GraphOf(LINEAR_MAP);
    GraphOfLastWins(LINEAR_MAP, 0);
    GraphOfLastWins(LINEAR_MAP, 2);
    assert NodeAfter(g, "RL", "AAA", 1) == Ok("CCC");
    assert NodeAfter(g, "RL", "AAA", 2) == Ok("ZZZ");
  }

  /** `LLR` on the repeating map needs the directions twice: six steps. */
  lemma RepeatingMapExample()
    ensures WalkOutcome(GraphOf(REPEATING_MAP), "LLR", "AAA", IsEnd, MAX_STEPS, Ok(6))
  {
    var g := GraphOf(REPEATING_MAP);
    GraphOfLastWins(REPEATING_MAP, 0);
    GraphOfLastWins(REPEATING_MAP, 1);
    assert NodeAfter(g, "LLR", "AAA", 1) == Ok("BBB");
    assert NodeAfter(g, "LLR", "AAA", 2) == Ok("AAA");
    assert NodeAfter(g, "LLR", "AAA", 3) == Ok("BBB");
    assert NodeAfter(g, "LLR", "AAA", 4) == Ok("AAA");
    assert NodeAfter(g, "LLR", "AAA", 5) == Ok("BBB");
    assert NodeAfter(g, "LLR", "AAA", 6) == Ok("ZZZ");
  }
}
