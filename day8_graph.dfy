/** The desert map of day 8, shared by both parts: declarations
    `K = (L, R)`, the graph they build, and a walker that replays the
    direction string cyclically until it stands on a target node. */
module Day8Graph {
  import opened Common
  import opened Text
  import opened Arithmetic

  datatype Destination = Destination(left: string, right: string)

  datatype Declaration = Declaration(name: string, dest: Destination)

  type Graph = map<string, Destination>

  datatype WalkError =
    | NoInput                 // the input has no first line
    | MalformedLine(index: nat) // declaration line `index` lacks ` = ` or `, `
    | MissingNode(name: string) // the walk reached a node with no entry
    | NoDirections            // the direction string is empty
    | BadDirection(symbol: char) // a direction that is neither `L` nor `R`
    | StepOverflow            // the step counter would pass its largest value
    | NoStartNodes            // part 2: no node ends in `A`
    | LcmOverflow             // part 2: the combined count passes the u64 range

  // ---------------------------------------------------------------------
  // Graph builder

  /** One line `K = (L, R)`: the text before the first ` = ` is the key; the
      piece after it is split at `, `; `(`s are trimmed from the start of the
      first part and `)`s from the end of the second. */
  function ParseDeclaration(line: string): Option<Declaration>
  {
    match AfterFirst(line, " = ")
    case None => None
    case Some(after) =>
      var value := FirstField(after, " = ");
      match AfterFirst(value, ", ")
      case None => None
      case Some(tail) =>
        Some(Declaration(FirstField(line, " = "),
          Destination(TrimStartChar(FirstField(value, ", "), '('), TrimEndChar(FirstField(tail, ", "), ')'))))
  }

  /** Node labels as the puzzle writes them: letters and digits. */
  predicate IsLabel(s: string)
  {
    forall i :: 0 <= i < |s| ==> ('A' <= s[i] <= 'Z' || 'a' <= s[i] <= 'z' || '0' <= s[i] <= '9')
  }

  function FormatDeclaration(d: Declaration): string
  {
    d.name + " = " + FormatDestination(d.dest)
  }

  function FormatDestination(dest: Destination): string
  {
    "(" + dest.left + ", " + dest.right + ")"
  }

  /** Parsing reads back every declaration written with labels. */
  lemma ParseFormat(d: Declaration)
    requires IsLabel(d.name) && IsLabel(d.dest.left) && IsLabel(d.dest.right)
    ensures ParseDeclaration(FormatDeclaration(d)) == Some(d)
  {
    SplitName(d.name, FormatDestination(d.dest));
    SplitDestination(d.dest.left, d.dest.right);
    TrimOpen(d.dest.left);
    TrimClose(d.dest.right);
  }

  lemma LabelHasNoPunctuation(s: string)
    requires IsLabel(s)
    ensures ' ' !in s && ',' !in s && '=' !in s && '(' !in s && ')' !in s
  {
  }

  lemma SplitName(name: string, value: string)
    requires IsLabel(name)
    ensures FirstField(name + " = " + value, " = ") == name
    ensures AfterFirst(name + " = " + value, " = ") == Some(value)
  {
    LabelHasNoPunctuation(name);
    FindAfterPrefix(name, " = ", value);
    assert (name + " = " + value)[|name| + 3..] == value;
  }

  lemma SplitDestination(left: string, right: string)
    requires IsLabel(left) && IsLabel(right)
    ensures var v := FormatDestination(Destination(left, right));
      FirstField(v, " = ") == v && FirstField(v, ", ") == "(" + left
      && AfterFirst(v, ", ") == Some(right + ")") && FirstField(right + ")", ", ") == right + ")"
  {
    var v := FormatDestination(Destination(left, right));
    LabelHasNoPunctuation(left);
    LabelHasNoPunctuation(right);
    assert '=' !in v;
    FindAbsent(v, " = ", 1);
    assert v == "(" + left + ", " + (right + ")");
    FindAfterPrefix("(" + left, ", ", right + ")");
    assert v[|left| + 3..] == right + ")";
    assert ',' !in right + ")";
    FindAbsent(right + ")", ", ", 0);
  }

  lemma TrimOpen(left: string)
    requires IsLabel(left)
    ensures TrimStartChar("(" + left, '(') == left
  {
    var s := "(" + left;
    assert s[1..] == left;
    assert LeadingCount(s, '(') == 1 + LeadingCount(left, '(');
  }

  lemma TrimClose(right: string)
    requires IsLabel(right)
    ensures TrimEndChar(right + ")", ')') == right
  {
    var s := right + ")";
    assert s[..|right|] == right;
    assert TrailingCount(s, ')') == 1 + TrailingCount(right, ')');
  }

  /** The parse of each line. */
  function Parses(lines: seq<string>): (ps: seq<Option<Declaration>>)
    ensures |ps| == |lines|
  {
    seq(|lines|, k requires 0 <= k < |lines| => ParseDeclaration(lines[k]))
  }

  /** The declarations of all lines, or `None` when some line does not parse. */
  function ParseAll(lines: seq<string>): Option<seq<Declaration>>
  {
    AllSome(Parses(lines))
  }

  /** `ParseAll` succeeds exactly when every line parses, and then yields
      each line's declaration in order. */
  lemma ParseAllLines(lines: seq<string>)
    ensures ParseAll(lines).Some? <==> forall k :: 0 <= k < |lines| ==> ParseDeclaration(lines[k]).Some?
    ensures ParseAll(lines).Some? ==>
      |ParseAll(lines).value| == |lines| &&
      forall k :: 0 <= k < |lines| ==> ParseDeclaration(lines[k]) == Some(ParseAll(lines).value[k])
  {
    var ps := Parses(lines);
    AllSomeSpec(ps);
    assert forall k :: 0 <= k < |lines| ==> ps[k] == ParseDeclaration(lines[k]);
  }

  /** The lines after the direction line and the line skipped after it. */
  function DeclarationLines(lines: seq<string>): (decls: seq<string>)
    ensures |lines| >= 2 ==> decls == lines[2..]
    ensures |lines| < 2 ==> decls == []
  {
    if |lines| < 2 then [] else lines[2..]
  }

  /** Line `index` is the first that does not parse. */
  predicate FirstMalformed(lines: seq<string>, index: nat)
  {
    index < |lines| && ParseAll(lines[..index]).Some? && ParseDeclaration(lines[index]).None?
  }

  /** At most one line is the first malformed one. */
  lemma FirstMalformedUnique(lines: seq<string>, i: nat, j: nat)
    requires FirstMalformed(lines, i) && FirstMalformed(lines, j)
    ensures i == j
  {
    ParseAllLines(lines[..i]);
    ParseAllLines(lines[..j]);
    assert forall k :: 0 <= k < i ==> lines[..i][k] == lines[k];
    assert forall k :: 0 <= k < j ==> lines[..j][k] == lines[k];
  }

  /** The lines that write out a list of declarations. */
  function FormatAll(ds: seq<Declaration>): (lines: seq<string>)
    ensures |lines| == |ds|
  {
    seq(|ds|, i requires 0 <= i < |ds| => FormatDeclaration(ds[i]))
  }

  /** Declaration lines written with labels parse back to the declarations. */
  lemma ParseFormatAll(ds: seq<Declaration>)
    requires forall i :: 0 <= i < |ds| ==> IsLabel(ds[i].name) && IsLabel(ds[i].dest.left) && IsLabel(ds[i].dest.right)
    ensures ParseAll(FormatAll(ds)) == Some(ds)
  {
    var lines := FormatAll(ds);
    forall i | 0 <= i < |ds| ensures ParseDeclaration(lines[i]) == Some(ds[i]) {
      ParseFormat(ds[i]);
    }
    ParseAllLines(lines);
    var vs := ParseAll(lines).value;
    assert |vs| == |ds|;
    assert forall i :: 0 <= i < |ds| ==> vs[i] == ds[i];
    assert vs == ds;
  }

  /** The graph after inserting the declarations in order. */
  function GraphOf(ds: seq<Declaration>): Graph
  {
    if ds == [] then map[] else GraphOf(ds[..|ds| - 1])[ds[|ds| - 1].name := ds[|ds| - 1].dest]
  }

  /** The keys of the graph are exactly the declared names. */
  lemma {:induction false} GraphOfKeys(ds: seq<Declaration>)
    ensures GraphOf(ds).Keys == set i | 0 <= i < |ds| :: ds[i].name
  {
    if ds != [] {
      var front := ds[..|ds| - 1];
      GraphOfKeys(front);
      var all := set i | 0 <= i < |ds| :: ds[i].name;
      var before := set i | 0 <= i < |front| :: front[i].name;
      assert all == before + {ds[|ds| - 1].name} by {
        forall x | x in all ensures x in before + {ds[|ds| - 1].name} {
          var i :| 0 <= i < |ds| && ds[i].name == x;
          if i < |front| { assert front[i].name == x; }
        }
        forall x | x in before ensures x in all {
          var i :| 0 <= i < |front| && front[i].name == x;
          assert ds[i].name == x;
        }
      }
    }
  }

  /** A key maps to the destination of its last declaration: a later line
      with the same key replaces an earlier one. */
  lemma {:induction false} GraphOfLastWins(ds: seq<Declaration>, i: nat)
    requires i < |ds|
    requires forall j :: i < j < |ds| ==> ds[j].name != ds[i].name
    ensures ds[i].name in GraphOf(ds) && GraphOf(ds)[ds[i].name] == ds[i].dest
  {
    if i < |ds| - 1 {
      var front := ds[..|ds| - 1];
      GraphOfLastWins(front, i);
    }
  }

  lemma GraphOfSnoc(ds: seq<Declaration>, d: Declaration)
    ensures GraphOf(ds + [d]) == GraphOf(ds)[d.name := d.dest]
  {
    assert (ds + [d])[..|ds|] == ds;
  }

  /** Builds the graph line by line, failing at the first malformed line. */
  method BuildGraph(lines: seq<string>) returns (r: Result<Graph, WalkError>)
    ensures r.Ok? <==> ParseAll(lines).Some?
    ensures r.Ok? ==> r.value == GraphOf(ParseAll(lines).value)
    ensures r.Err? ==> r.error.MalformedLine? && FirstMalformed(lines, r.error.index)
  {
    var graph: Graph := map[];
    ghost var ds: seq<Declaration> := [];
    assert Parses(lines)[..0] == [];
    for i := 0 to |lines|
      invariant AllSome(Parses(lines)[..i]) == Some(ds)
      invariant graph == GraphOf(ds)
    {
      var parsed := ParseDeclaration(lines[i]);
      if parsed.None? {
        MalformedStop(lines, i, ds);
        return Err(MalformedLine(i));
      }
      var d := parsed.value;
      graph := graph[d.name := d.dest];
      ParsedStep(lines, i, ds, d);
      GraphOfSnoc(ds, d);
      ds := ds + [d];
    }
    ParsedAll(lines, ds);
    return Ok(graph);
  }

  /** One more line that parses extends the declarations read so far. */
  lemma ParsedStep(lines: seq<string>, i: nat, ds: seq<Declaration>, d: Declaration)
    requires i < |lines| && AllSome(Parses(lines)[..i]) == Some(ds)
    requires ParseDeclaration(lines[i]) == Some(d)
    ensures AllSome(Parses(lines)[..i + 1]) == Some(ds + [d])
  {
    var ps := Parses(lines);
    assert ps[..i + 1][..i] == ps[..i];
  }

  /** A line that does not parse, after lines that do, is the first
      malformed line, and the whole text does not parse. */
  lemma MalformedStop(lines: seq<string>, i: nat, ds: seq<Declaration>)
    requires i < |lines| && AllSome(Parses(lines)[..i]) == Some(ds)
    requires ParseDeclaration(lines[i]).None?
    ensures ParseAll(lines).None? && FirstMalformed(lines, i)
  {
    var ps := Parses(lines);
    assert ps[..i + 1][..i] == ps[..i];
    AllSomeFailsLater(ps, i + 1);
    assert ps[..i] == Parses(lines[..i]);
  }

  /** Every line read: the declarations are those of the whole text. */
  lemma ParsedAll(lines: seq<string>, ds: seq<Declaration>)
    requires AllSome(Parses(lines)[..|lines|]) == Some(ds)
    ensures ParseAll(lines) == Some(ds)
  {
    assert Parses(lines)[..|lines|] == Parses(lines);
  }

  // ---------------------------------------------------------------------
  // Walking the graph

  /** The direction used at global step `s`. */
  function DirectionAt(dirs: string, s: nat): char
    requires |dirs| > 0
  {
    dirs[s % |dirs|]
  }

  /** The direction string is replayed with period `|dirs|`. */
  lemma DirectionPeriodic(dirs: string, s: nat)
    requires |dirs| > 0
    ensures DirectionAt(dirs, s + |dirs|) == DirectionAt(dirs, s)
  {
    ModPeriod(s, |dirs|);
  }

  /** One move from `node` at global step `s`: look the node up, then take
      the right successor for `R` and the left one for `L`. */
  function Advance(g: Graph, dirs: string, node: string, s: nat): (r: Result<string, WalkError>)
    ensures r.Ok? ==> node in g && |dirs| > 0
    ensures r.Ok? && DirectionAt(dirs, s) == 'R' ==> r.value == g[node].right
    ensures r.Ok? && DirectionAt(dirs, s) == 'L' ==> r.value == g[node].left
    ensures r.Err? ==> r.error == MissingNode(node) || r.error == NoDirections || (|dirs| > 0 && r.error == BadDirection(DirectionAt(dirs, s)))
    ensures node in g && |dirs| > 0 && DirectionAt(dirs, s) != 'L' && DirectionAt(dirs, s) != 'R'
            ==> r == Err(BadDirection(DirectionAt(dirs, s)))
  {
    if node !in g then Err(MissingNode(node))
    else if |dirs| == 0 then Err(NoDirections)
    else
      var c := dirs[s % |dirs|];
      if c == 'R' then Ok(g[node].right)
      else if c == 'L' then Ok(g[node].left)
      else Err(BadDirection(c))
  }

  /** Where the walk from `start` stands after `n` moves (or why it broke). */
  function NodeAfter(g: Graph, dirs: string, start: string, n: nat): Result<string, WalkError>
  {
    if n == 0 then Ok(start)
    else match NodeAfter(g, dirs, start, n - 1)
      case Err(e) => Err(e)
      case Ok(node) => Advance(g, dirs, node, n - 1)
  }

  /** A broken walk stays broken. */
  lemma {:induction false} BrokenStaysBroken(g: Graph, dirs: string, start: string, k: nat, m: nat)
    ensures k <= m && NodeAfter(g, dirs, start, k).Err? ==> NodeAfter(g, dirs, start, m) == NodeAfter(g, dirs, start, k)
    decreases m
  {
    if k < m { BrokenStaysBroken(g, dirs, start, k, m - 1); }
  }

  lemma BrokenForever(g: Graph, dirs: string, start: string)
    ensures forall k: nat, m: nat ::
      k <= m && NodeAfter(g, dirs, start, k).Err? ==> NodeAfter(g, dirs, start, m) == NodeAfter(g, dirs, start, k)
  {
    forall k: nat, m: nat
      ensures k <= m && NodeAfter(g, dirs, start, k).Err? ==> NodeAfter(g, dirs, start, m) == NodeAfter(g, dirs, start, k)
    {
      BrokenStaysBroken(g, dirs, start, k, m);
    }
  }

  /** The walk stood on a non-target node at every step before `n`. */
  predicate NotYet(g: Graph, dirs: string, start: string, isTarget: string -> bool, n: nat)
  {
    forall k: nat :: k < n ==> NodeAfter(g, dirs, start, k).Ok? && !isTarget(NodeAfter(g, dirs, start, k).value)
  }

  /** The walk reaches a target before the step counter overflows. */
  predicate Succeeds(g: Graph, dirs: string, start: string, isTarget: string -> bool, maxSteps: nat)
  {
    exists n: nat :: n <= maxSteps && WalkOutcome(g, dirs, start, isTarget, maxSteps, Ok(n))
  }

  predicate TargetAt(g: Graph, dirs: string, start: string, isTarget: string -> bool, n: nat)
  {
    NodeAfter(g, dirs, start, n).Ok? && isTarget(NodeAfter(g, dirs, start, n).value)
  }

  /** What a walk whose step counter holds at most `maxSteps` reports: the
      first step that stands on a target; the error of the first move that
      breaks; or an overflow when a move would take the counter past
      `maxSteps` (a debug-build `+= 1` panics there). */
  predicate WalkOutcome(g: Graph, dirs: string, start: string, isTarget: string -> bool, maxSteps: nat,
                        r: Result<nat, WalkError>)
  {
    match r
    case Ok(n) => n <= maxSteps && NotYet(g, dirs, start, isTarget, n) && TargetAt(g, dirs, start, isTarget, n)
    case Err(e) =>
      if e == StepOverflow then
        NotYet(g, dirs, start, isTarget, maxSteps + 1) && NodeAfter(g, dirs, start, maxSteps + 1).Ok?
      else
        exists k: nat :: 1 <= k <= maxSteps + 1 && NotYet(g, dirs, start, isTarget, k) && NodeAfter(g, dirs, start, k) == Err(e)
  }

  /** The outcome is a function of the graph, the directions, the start and
      the counter width: re-running the walk gives the same answer. */
  lemma WalkOutcomeUnique(g: Graph, dirs: string, start: string, isTarget: string -> bool, maxSteps: nat,
                          r1: Result<nat, WalkError>, r2: Result<nat, WalkError>)
    requires WalkOutcome(g, dirs, start, isTarget, maxSteps, r1)
    requires WalkOutcome(g, dirs, start, isTarget, maxSteps, r2)
    ensures r1 == r2
  {
    BrokenForever(g, dirs, start);
  }

  /** One more move from a non-target node. */
  lemma WalkStep(g: Graph, dirs: string, start: string, isTarget: string -> bool, n: nat, node: string)
    requires NodeAfter(g, dirs, start, n) == Ok(node) && !isTarget(node)
    requires NotYet(g, dirs, start, isTarget, n)
    ensures NotYet(g, dirs, start, isTarget, n + 1)
    ensures NodeAfter(g, dirs, start, n + 1) == Advance(g, dirs, node, n)
  {
  }

  /** A start that is already a target needs no moves, whatever the graph. */
  lemma StartOnTarget(g: Graph, dirs: string, start: string, isTarget: string -> bool, maxSteps: nat,
                      r: Result<nat, WalkError>)
    requires isTarget(start)
    requires WalkOutcome(g, dirs, start, isTarget, maxSteps, r)
    ensures r == Ok(0)
  {
    assert WalkOutcome(g, dirs, start, isTarget, maxSteps, Ok(0));
    WalkOutcomeUnique(g, dirs, start, isTarget, maxSteps, r, Ok(0));
  }

  /** A start that is not a target needs at least one move. */
  lemma StartOffTarget(g: Graph, dirs: string, start: string, isTarget: string -> bool, maxSteps: nat, n: nat)
    requires !isTarget(start)
    requires WalkOutcome(g, dirs, start, isTarget, maxSteps, Ok(n))
    ensures n >= 1
  {
    assert NodeAfter(g, dirs, start, 0) == Ok(start);
  }

  /** Counts the moves from `start` until the current node is a target,
      keeping the direction index `next` equal to `steps mod |dirs|`. */
  method CountSteps(g: Graph, dirs: string, start: string, isTarget: string -> bool, maxSteps: nat)
    returns (r: Result<nat, WalkError>)
    ensures WalkOutcome(g, dirs, start, isTarget, maxSteps, r)
  {
    var node := start;
    var steps: nat := 0;
    var next: nat := 0;
    while !isTarget(node)
      invariant steps <= maxSteps
      invariant next == if |dirs| == 0 then 0 else steps % |dirs|
      invariant NodeAfter(g, dirs, start, steps) == Ok(node)
      invariant NotYet(g, dirs, start, isTarget, steps)
      decreases maxSteps - steps
    {
      WalkStep(g, dirs, start, isTarget, steps, node);
      if node !in g {
        return Err(MissingNode(node));
      }
      if next >= |dirs| {
        return Err(NoDirections);
      }
      var direction := dirs[next];
      if direction == 'R' {
        node := g[node].right;
      } else if direction == 'L' {
        node := g[node].left;
      } else {
        return Err(BadDirection(direction));
      }
      if steps == maxSteps {
        return Err(StepOverflow);
      }
      ModSucc(steps, |dirs|);
      steps := steps + 1;
      next := (next + 1) % |dirs|;
    }
    return Ok(steps);
  }
}
