/** Day 6, part 2: the spaces between the numbers are a misprint, so each
    line holds one number, the concatenation of its digit groups; the
    margin is the number of winning hold times, in `u64`
    (`read_race_data` and `compute_error_margin` in day6p2.rs). */
module Day6Part2 {
  import opened Common
  import opened Text
  import opened Day6Races

  datatype RaceRecord = RaceRecord(time: nat, distance: nat)

  /** The `assert!` on the line count, the `unwrap` of the parse, and the
      overflow inside `get_winning_distances`. */
  datatype RaceError = LineCount | BadNumber | Overflow

  /** `collect::<String>()`: the tokens written one after another. */
  function Concat(tokens: seq<string>): string
  {
    if tokens == [] then [] else Concat(tokens[..|tokens| - 1]) + tokens[|tokens| - 1]
  }

  /** The one number on a line: its groups after the label, concatenated
      and parsed as a `u64`. */
  function Joined(line: string): Option<nat>
  {
    ParseU64(Concat(AfterLabel(line)))
  }

  /** `read_race_data`: exactly two lines, each holding one number. */
  function ReadRaceData(input: string): (r: Result<RaceRecord, RaceError>)
    ensures r.Ok? ==> r.value.time < U64_LIMIT && r.value.distance < U64_LIMIT
  {
    var lines := Lines(input);
    if |lines| != 2 then Err(LineCount)
    else match Joined(lines[0])
      case None => Err(BadNumber)
      case Some(time) =>
        match Joined(lines[1])
        case None => Err(BadNumber)
        case Some(distance) => Ok(RaceRecord(time, distance))
  }

  /** Appending a digit group shifts the number read so far left by the
      group's length: concatenating the groups reads them as one decimal
      number. */
  lemma ConcatDigits(tokens: seq<string>, group: string)
    requires AllDigits(Concat(tokens)) && AllDigits(group)
    ensures Concat(tokens + [group]) == Concat(tokens) + group
    ensures AllDigits(Concat(tokens + [group]))
    ensures DecimalValue(Concat(tokens + [group])) == DecimalValue(Concat(tokens)) * Pow10(|group|) + DecimalValue(group)
  {
    assert (tokens + [group])[..|tokens|] == tokens;
    DecimalValueConcat(Concat(tokens), group);
  }

  /** A line is read exactly when its concatenated groups form a `u64`,
      and the reader fails exactly on a line count other than two or on a
      line that does not. */
  lemma ReadRaceDataSpec(input: string)
    ensures var lines := Lines(input);
      var r := ReadRaceData(input);
      (|lines| != 2 <==> r == Err(LineCount)) &&
      (|lines| == 2 ==>
        (r == Err(BadNumber) <==> Joined(lines[0]).None? || Joined(lines[1]).None?) &&
        (r.Ok? ==> ParseU64(Concat(AfterLabel(lines[0]))) == Some(r.value.time) &&
                   ParseU64(Concat(AfterLabel(lines[1]))) == Some(r.value.distance)))
  {
  }

  /** `record.get_winning_distances().len() as u64`. */
  function ComputeErrorMargin(r: RaceRecord): (m: Result<nat, RaceError>)
    ensures m.Ok? ==> m.value < U64_LIMIT
  {
    match Winning(r.time, r.distance, U64_LIMIT)
    case None => Err(Overflow)
    case Some(kept) => Ok(|kept| % U64_LIMIT)
  }

  /** The margin is the number of winning hold times, which the cast never
      truncates for a time that is a `u64`; it fails only on the overflow. */
  lemma MarginIsCount(r: RaceRecord)
    requires r.time < U64_LIMIT
    ensures ComputeErrorMargin(r).Ok? <==> !Overflows(r.time, U64_LIMIT)
    ensures ComputeErrorMargin(r).Ok? ==> ComputeErrorMargin(r).value == |Above(Distances(r.time), r.distance)|
  {
    WinningBound(r.time, r.distance);
  }

  /** The unit test: the example's groups read as 71530 and 940200. */
  lemma ExampleRaceData()
    ensures ReadRaceData(Unwords(["Time:", "7", "15", "30"]) + "\n" + Unwords(["Distance:", "9", "40", "200"]))
      == Ok(RaceRecord(71530, 940200))
  {
    var line0, line1 := Unwords(["Time:", "7", "15", "30"]), Unwords(["Distance:", "9", "40", "200"]);
    ExampleTimeLine();
    ExampleDistanceLine();
    LinesOfTwo(line0, line1);
    ReadTwoLines(line0 + "\n" + line1, 71530, 940200);
  }

  lemma ExampleTimeLine()
    ensures NoLineBreak(Unwords(["Time:", "7", "15", "30"])) && Unwords(["Time:", "7", "15", "30"]) != []
    ensures Joined(Unwords(["Time:", "7", "15", "30"])) == Some(71530)
  {
    LabelsAreWords();
    ExampleNumbers();
    var groups := ["7", "15", "30"];
    var line := Unwords(["Time:"] + groups);
    LabelledLine("Time:", groups);
    assert AfterLabel(line) == groups;
    ExampleConcat(groups);
    assert "7" + "15" + "30" == "71530";
    assert Concat(groups) == "71530";
  }

  lemma ExampleDistanceLine()
    ensures NoLineBreak(Unwords(["Distance:", "9", "40", "200"])) && Unwords(["Distance:", "9", "40", "200"]) != []
    ensures Joined(Unwords(["Distance:", "9", "40", "200"])) == Some(940200)
  {
    LabelsAreWords();
    ExampleNumbers();
    var groups := ["9", "40", "200"];
    var line := Unwords(["Distance:"] + groups);
    LabelledLine("Distance:", groups);
    assert AfterLabel(line) == groups;
    ExampleConcat(groups);
    assert "9" + "40" + "200" == "940200";
    assert Concat(groups) == "940200";
  }

  lemma ExampleConcat(groups: seq<string>)
    requires |groups| == 3
    ensures Concat(groups) == groups[0] + groups[1] + groups[2]
  {
    assert Concat(groups[..1]) == groups[0] by {
      assert groups[..1][..0] == [];
    }
    assert Concat(groups[..2]) == groups[0] + groups[1] by {
      assert groups[..2][..1] == groups[..1];
    }
    assert groups[..3] == groups;
  }

  lemma ExampleNumbers()
    ensures ParseU64("71530") == Some(71530) && ParseU64("940200") == Some(940200)
  {
    ParseToDecimal(71530, U64_LIMIT);
    TimeDigits();
    ParseToDecimal(940200, U64_LIMIT);
    DistanceDigits();
  }

  lemma TimeDigits()
    ensures ToDecimal(71530) == "71530"
  {
    assert ToDecimal(715) == "715";
    assert ToDecimal(7153) == "7153";
  }

  lemma DistanceDigits()
    ensures ToDecimal(940200) == "940200"
  {
    assert ToDecimal(940) == "940";
    assert ToDecimal(9402) == "9402";
    assert ToDecimal(94020) == "94020";
  }

  lemma ReadTwoLines(input: string, time: nat, distance: nat)
    requires |Lines(input)| == 2 && Joined(Lines(input)[0]) == Some(time) && Joined(Lines(input)[1]) == Some(distance)
    ensures ReadRaceData(input) == Ok(RaceRecord(time, distance))
  {
  }
}
