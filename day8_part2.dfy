/** Day 8, part 2: one walker per node ending in `A`, each counting its
    moves to a node ending in `Z`; the counts are combined with lcm
    (`follow_instructions` in day8p2.rs). */
module Day8Part2 {
  import opened Common
  import opened Text
  import opened Arithmetic
  import opened Day8Graph

  /** The step counters are `u64`s. */
  const MAX_STEPS: nat := U64_LIMIT - 1

  function IsStart(name: string): bool
  {
    EndsWith(name, 'A')
  }

  function IsEnd(node: string): bool
  {
    EndsWith(node, 'Z')
  }

  /** The names ending in `A`, in declaration order, repeats included. */
  function StartNames(ds: seq<Declaration>): seq<string>
  {
    if ds == [] then []
    else
      var last := ds[|ds| - 1];
      StartNames(ds[..|ds| - 1]) + if IsStart(last.name) then [last.name] else []
  }

  /** The start nodes are exactly the declared keys ending in `A`. */
  lemma {:induction false} StartNamesAreStartKeys(ds: seq<Declaration>)
    ensures forall k :: 0 <= k < |StartNames(ds)| ==> IsStart(StartNames(ds)[k]) && StartNames(ds)[k] in GraphOf(ds)
    ensures forall i :: 0 <= i < |ds| && IsStart(ds[i].name) ==> ds[i].name in StartNames(ds)
  {
    if ds != [] {
      var front := ds[..|ds| - 1];
      StartNamesAreStartKeys(front);
      GraphOfKeys(ds);
      GraphOfKeys(front);
      forall i | 0 <= i < |ds| && IsStart(ds[i].name) ensures ds[i].name in StartNames(ds) {
        if i < |front| { assert ds[i] == front[i]; }
      }
    }
  }

  lemma StartNamesSnoc(ds: seq<Declaration>, d: Declaration)
    ensures StartNames(ds + [d]) == StartNames(ds) + if IsStart(d.name) then [d.name] else []
  {
    assert (ds + [d])[..|ds|] == ds;
  }

  /** Builds the graph and collects the start nodes in one pass over the lines. */
  method BuildGraphAndStarts(lines: seq<string>) returns (r: Result<(Graph, seq<string>), WalkError>)
    ensures r.Ok? <==> ParseAll(lines).Some?
    ensures r.Ok? ==> r.value.0 == GraphOf(ParseAll(lines).value) && r.value.1 == StartNames(ParseAll(lines).value)
    ensures r.Err? ==> r.error.MalformedLine? && FirstMalformed(lines, r.error.index)
  {
    var graph: Graph := map[];
    var starts: seq<string> := [];
    ghost var ds: seq<Declaration> := [];
    assert Parses(lines)[..0] == [];
    for i := 0 to |lines|
      invariant AllSome(Parses(lines)[..i]) == Some(ds)
      invariant graph == GraphOf(ds)
      invariant starts == StartNames(ds)
    {
      var parsed := ParseDeclaration(lines[i]);
      if parsed.None? {
        MalformedStop(lines, i, ds);
        return Err(MalformedLine(i));
      }
      var d := parsed.value;
      if IsStart(d.name) {
        starts := starts + [d.name];
      }
      graph := graph[d.name := d.dest];
      ParsedStep(lines, i, ds, d);
      GraphOfSnoc(ds, d);
      StartNamesSnoc(ds, d);
      ds := ds + [d];
    }
    ParsedAll(lines, ds);
    return Ok((graph, starts));
  }

  /** What the walkers report together: every count, or the error of the
      first walker (in start order) that fails. */
  ghost predicate WalkersOutcome(g: Graph, dirs: string, starts: seq<string>, r: Result<seq<nat>, WalkError>)
  {
    match r
    case Ok(counts) =>
      |counts| == |starts| &&
      forall i :: 0 <= i < |starts| ==> WalkOutcome(g, dirs, starts[i], IsEnd, MAX_STEPS, Ok(counts[i]))
    case Err(e) =>
      exists i ::
        0 <= i < |starts| && WalkOutcome(g, dirs, starts[i], IsEnd, MAX_STEPS, Err(e)) &&
        forall j :: 0 <= j < i ==> Succeeds(g, dirs, starts[j], IsEnd, MAX_STEPS)
  }

  /** Runs each walker with its own step counter and direction index. */
  method CountWalkers(g: Graph, dirs: string, starts: seq<string>) returns (r: Result<seq<nat>, WalkError>)
    ensures WalkersOutcome(g, dirs, starts, r)
  {
    var counts: seq<nat> := [];
    for i := 0 to |starts|
      invariant |counts| == i
      invariant forall j :: 0 <= j < i ==> WalkOutcome(g, dirs, starts[j], IsEnd, MAX_STEPS, Ok(counts[j]))
    {
      var walked := CountSteps(g, dirs, starts[i], IsEnd, MAX_STEPS);
      if walked.Err? {
        assert forall j :: 0 <= j < i ==> Succeeds(g, dirs, starts[j], IsEnd, MAX_STEPS);
        return Err(walked.error);
      }
      counts := counts + [walked.value];
    }
    return Ok(counts);
  }

  /** A walker starts on a node ending in `A`, so it moves at least once. */
  lemma WalkerCountsPositive(g: Graph, dirs: string, ds: seq<Declaration>, counts: seq<nat>)
    requires WalkersOutcome(g, dirs, StartNames(ds), Ok(counts))
    ensures forall i :: 0 <= i < |counts| ==> counts[i] >= 1
  {
    StartNamesAreStartKeys(ds);
    var starts := StartNames(ds);
    forall i | 0 <= i < |counts| ensures counts[i] >= 1 {
      assert IsStart(starts[i]);
      StartOffTarget(g, dirs, starts[i], IsEnd, MAX_STEPS, counts[i]);
    }
  }

  /** The `reduce` with `lcm` over the counts: no counts is an error (the
      `unwrap` of `None`), and so is a `u64` overflow of an intermediate lcm. */
  function CombineCounts(counts: seq<nat>): (r: Result<nat, WalkError>)
    ensures r.Ok? ==> |counts| > 0 && r.value == LcmAll(counts) && r.value < U64_LIMIT
    ensures counts == [] ==> r == Err(NoStartNodes)
    ensures r.Err? && counts != [] ==> r.error == LcmOverflow
  {
    if |counts| == 0 then Err(NoStartNodes)
    else if |counts| == 1 then
      if counts[0] < U64_LIMIT then Ok(counts[0]) else Err(LcmOverflow)
    else
      match CombineCounts(counts[..|counts| - 1])
      case Err(e) => Err(e)
      case Ok(acc) =>
        var l := Lcm(acc, counts[|counts| - 1]);
        if l < U64_LIMIT then Ok(l) else Err(LcmOverflow)
  }

  /** The answer is the least common multiple of the positive counts: each
      count divides it, and it divides (so is at most) every positive common
      multiple. */
  lemma CombinedIsLeastCommonMultiple(counts: seq<nat>, m: nat)
    requires CombineCounts(counts).Ok?
    requires forall i :: 0 <= i < |counts| ==> counts[i] >= 1
    ensures forall i :: 0 <= i < |counts| ==> Divides(counts[i], CombineCounts(counts).value)
    ensures (forall i :: 0 <= i < |counts| ==> Divides(counts[i], m)) && m > 0 ==>
      Divides(CombineCounts(counts).value, m) && CombineCounts(counts).value <= m
  {
    LcmAllCommonMultiple(counts);
    if (forall i :: 0 <= i < |counts| ==> Divides(counts[i], m)) && m > 0 {
      LcmAllLeast(counts, m);
      DividesBound(LcmAll(counts), m);
    }
  }

  function Combine(w: Result<seq<nat>, WalkError>): Result<nat, WalkError>
  {
    match w
    case Err(e) => Err(e)
    case Ok(counts) => CombineCounts(counts)
  }

  /** What the solver answers for `input`. */
  ghost predicate Answer(input: string, r: Result<nat, WalkError>)
  {
    var lines := Lines(input);
    if lines == [] then r == Err(NoInput)
    else
      var decls := DeclarationLines(lines);
      match ParseAll(decls)
      case None => r.Err? && r.error.MalformedLine? && FirstMalformed(decls, r.error.index)
      case Some(ds) =>
        exists w :: WalkersOutcome(GraphOf(ds), lines[0], StartNames(ds), w) && r == Combine(w)
  }

  method FollowInstructions(input: string) returns (r: Result<nat, WalkError>)
    ensures Answer(input, r)
  {
    var lines := Lines(input);
    if |lines| == 0 {
      return Err(NoInput);
    }
    var directions := lines[0];
    var built := BuildGraphAndStarts(DeclarationLines(lines));
    if built.Err? {
      return Err(built.error);
    }
    var (graph, starts) := built.value;
    var walked := CountWalkers(graph, directions, starts);
    r := Combine(walked);
  }

  // ---------------------------------------------------------------------
  // The map of the unit test

  function D(name: string, left: string, right: string): Declaration
  {
    Declaration(name, Destination(left, right))
  }

  const GHOST_MAP: seq<Declaration> := [
    D("11A", "11B", "XXX"), D("11B", "XXX", "11Z"), D("11Z", "11B", "XXX"), D("22A", "22B", "XXX"),
    D("22B", "22C", "22C"), D("22C", "22Z", "22Z"), D("22Z", "22B", "22B"), D("XXX", "XXX", "XXX")]

  lemma GhostMapStarts()
    ensures StartNames(GHOST_MAP) == ["11A", "22A"]
  {
    var m := GHOST_MAP;
    var p: seq<Declaration> := [];
    for k := 0 to 4
      invariant p == m[..k]
      invariant StartNames(p) == if k == 0 then [] else if k < 4 then ["11A"] else ["11A", "22A"]
    {
      GhostMapStartFlag(k);
      StartNamesSnoc(p, m[k]);
      p := p + [m[k]];
    }
    GhostMapRestNotStart(p);
  }

  /** The last four declared nodes add no start node. */
  lemma GhostMapRestNotStart(p: seq<Declaration>)
    requires p == GHOST_MAP[..4] && StartNames(p) == ["11A", "22A"]
    ensures StartNames(GHOST_MAP) == ["11A", "22A"]
  {
    var m := GHOST_MAP;
    var q := p;
    for k := 4 to 8
      invariant q == m[..k] && StartNames(q) == ["11A", "22A"]
    {
      GhostMapStartFlag(k);
      StartNamesSnoc(q, m[k]);
      q := q + [m[k]];
    }
    assert q == m;
  }

  /** Only the first and the fourth declared nodes of the map are start nodes. */
  lemma GhostMapStartFlag(k: nat)
    requires k < |GHOST_MAP|
    ensures IsStart(GHOST_MAP[k].name) <==> k == 0 || k == 3
    ensures k == 0 ==> GHOST_MAP[k].name == "11A"
    ensures k == 3 ==> GHOST_MAP[k].name == "22A"
  {
  }

  /** With `LR`, the walker from 11A needs 2 moves. */
  lemma GhostMapFirstWalker()
    ensures WalkOutcome(GraphOf(GHOST_MAP), "LR", "11A", IsEnd, MAX_STEPS, Ok(2))
  {
    var g := GraphOf(GHOST_MAP);
    GraphOfLastWins(GHOST_MAP, 0);
    GraphOfLastWins(GHOST_MAP, 1);
    assert NodeAfter(g, "LR", "11A", 1) == Ok("11B");
    assert NodeAfter(g, "LR", "11A", 2) == Ok("11Z");
  }

  /** With `LR`, the walker from 22A needs 3 moves. */
  lemma GhostMapSecondWalker()
    ensures WalkOutcome(GraphOf(GHOST_MAP), "LR", "22A", IsEnd, MAX_STEPS, Ok(3))
  {
    var g := GraphOf(GHOST_MAP);
    GraphOfLastWins(GHOST_MAP, 3);
    GraphOfLastWins(GHOST_MAP, 4);
    GraphOfLastWins(GHOST_MAP, 5);
    assert NodeAfter(g, "LR", "22A", 1) == Ok("22B");
    assert NodeAfter(g, "LR", "22A", 2) == Ok("22C");
    assert NodeAfter(g, "LR", "22A", 3) == Ok("22Z");
  }

  /** The counts 2 and 3 combine to 6. */
  lemma GhostMapAnswer()
    ensures Combine(Ok([2, 3])) == Ok(6)
  {
    assert [2, 3][..1] == [2];
    assert Gcd(2, 3) == 1;
  }
}
