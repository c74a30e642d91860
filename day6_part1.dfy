/** Day 6, part 1: several races on two lines, `Time:` and `Distance:`;
    the error margin is the product of the numbers of winning hold times,
    in `u32` (`read_race_data` and `compute_error_margin` in day6p1.rs). */
module Day6Part1 {
  import opened Common
  import opened Text
  import opened Day6Races
  import opened Arithmetic

  datatype RaceRecord = RaceRecord(time: nat, distance: nat)

  /** The `assert!`s and `unwrap`s of the reader and the overflows and the
      empty `reduce` of the margin. */
  datatype RaceError = LineCount | BadNumber | CountMismatch | Overflow | NoRaces

  /** `map(|s| s.parse().unwrap()).collect()` into `u32`s. */
  function Numbers(line: string): Option<seq<nat>>
  {
    var ts := AfterLabel(line);
    AllSome(seq(|ts|, i requires 0 <= i < |ts| => ParseU32(ts[i])))
  }

  /** `read_race_data`: exactly two lines, as many times as distances, and
      the `i`-th time paired with the `i`-th distance. */
  function ReadRaceData(input: string): (r: Result<seq<RaceRecord>, RaceError>)
    ensures r.Ok? ==> forall i :: 0 <= i < |r.value| ==> r.value[i].time < U32_LIMIT && r.value[i].distance < U32_LIMIT
  {
    var lines := Lines(input);
    if |lines| != 2 then Err(LineCount)
    else
      NumbersSpec(lines[0]);
      NumbersSpec(lines[1]);
      match Numbers(lines[0])
      case None => Err(BadNumber)
      case Some(times) =>
        match Numbers(lines[1])
        case None => Err(BadNumber)
        case Some(distances) =>
          if |times| != |distances| then Err(CountMismatch)
          else Ok(Pair(times, distances))
  }

  /** Each line's numbers: present exactly when every token after the
      label parses as a `u32`, and then one number per token, in order. */
  lemma NumbersSpec(line: string)
    ensures var ts := AfterLabel(line);
      (Numbers(line).Some? <==> forall k :: 0 <= k < |ts| ==> ParseU32(ts[k]).Some?) &&
      (Numbers(line).Some? ==>
         |Numbers(line).value| == |ts| &&
         forall k :: 0 <= k < |ts| ==> ParseU32(ts[k]) == Some(Numbers(line).value[k]))
  {
    var ts := AfterLabel(line);
    var ps := seq(|ts|, i requires 0 <= i < |ts| => ParseU32(ts[i]));
    assert forall k :: 0 <= k < |ts| ==> ps[k] == ParseU32(ts[k]);
    AllSomeSpec(ps);
  }

  /** The reader fails exactly on a line count other than two, a line whose
      numbers do not parse, or a count mismatch; otherwise record `i` pairs
      the `i`-th number of each line. */
  lemma ReadRaceDataSpec(input: string)
    ensures var lines := Lines(input);
      var r := ReadRaceData(input);
      (|lines| != 2 <==> r == Err(LineCount)) &&
      (|lines| == 2 ==>
        (r == Err(BadNumber) <==> Numbers(lines[0]).None? || Numbers(lines[1]).None?) &&
        (r.Ok? <==> Numbers(lines[0]).Some? && Numbers(lines[1]).Some? &&
                    |Numbers(lines[0]).value| == |Numbers(lines[1]).value|) &&
        (r.Ok? ==>
           |r.value| == |Numbers(lines[0]).value| &&
           forall i :: 0 <= i < |r.value| ==>
             r.value[i] == RaceRecord(Numbers(lines[0]).value[i], Numbers(lines[1]).value[i])))
  {
  }

  /** `record.get_winning_distances().len() as u32`: the count, truncated to
      32 bits, or `None` for the overflow inside. */
  function WinCount(r: RaceRecord): (c: Option<nat>)
    ensures c.Some? ==> c.value < U32_LIMIT
  {
    match Winning(r.time, r.distance, U32_LIMIT)
    case None => None
    case Some(kept) => Some(|kept| % U32_LIMIT)
  }

  /** The truncation never bites for a time that is itself a `u32`. */
  lemma WinCountExact(r: RaceRecord)
    requires r.time < U32_LIMIT
    ensures WinCount(r).Some? ==> WinCount(r).value == |Above(Distances(r.time), r.distance)|
  {
    WinningBound(r.time, r.distance);
  }

  /** The `reduce(|acc, el| acc * el)` after the first race, panicking when a
      partial product leaves `u32`. */
  function MarginFrom(acc: nat, records: seq<RaceRecord>): (r: Result<nat, RaceError>)
    ensures acc < U32_LIMIT && r.Ok? ==> r.value < U32_LIMIT
    decreases |records|
  {
    if records == [] then Ok(acc)
    else match WinCount(records[0])
      case None => Err(Overflow)
      case Some(c) =>
        if acc * c >= U32_LIMIT then Err(Overflow) else MarginFrom(acc * c, records[1..])
  }

  /** `compute_error_margin`: the product of the winning counts; `unwrap` on
      an empty list panics. */
  function ComputeErrorMargin(records: seq<RaceRecord>): (r: Result<nat, RaceError>)
    ensures r.Ok? ==> r.value < U32_LIMIT
  {
    if records == [] then Err(NoRaces)
    else match WinCount(records[0])
      case None => Err(Overflow)
      case Some(c) => MarginFrom(c, records[1..])
  }

  lemma {:induction false} MarginFromValue(acc: nat, records: seq<RaceRecord>, cs: seq<nat>)
    requires |cs| == |records| && forall i :: 0 <= i < |records| ==> WinCount(records[i]) == Some(cs[i])
    ensures MarginFrom(acc, records).Ok? ==> MarginFrom(acc, records).value == acc * Product(cs)
    decreases |records|
  {
    if records != [] {
      var c, p := cs[0], Product(cs[1..]);
      MarginFromValue(acc * c, records[1..], cs[1..]);
      assert Product(cs) == c * p;
      MulAssoc(acc, c, p);
    }
  }

  lemma {:induction false} MarginFromSucceeds(acc: nat, records: seq<RaceRecord>, cs: seq<nat>)
    requires |cs| == |records| && forall i :: 0 <= i < |records| ==> WinCount(records[i]) == Some(cs[i])
    requires forall i :: 0 <= i < |cs| ==> cs[i] >= 1
    requires acc * Product(cs) < U32_LIMIT
    ensures MarginFrom(acc, records).Ok?
    decreases |records|
  {
    if records != [] {
      var c, p := cs[0], Product(cs[1..]);
      assert Product(cs) == c * p;
      MulAssoc(acc, c, p);
      ProductPositive(cs[1..]);
      MulGrows(acc * c, p);
      MarginFromSucceeds(acc * c, records[1..], cs[1..]);
    }
  }

  lemma MulGrows(x: nat, y: nat)
    requires y >= 1
    ensures x <= x * y
  {
  }

  lemma {:induction false} ProductPositive(cs: seq<nat>)
    requires forall i :: 0 <= i < |cs| ==> cs[i] >= 1
    ensures Product(cs) >= 1
  {
    if cs != [] {
      ProductPositive(cs[1..]);
      MulGrows(cs[0], Product(cs[1..]));
    }
  }

  /** With every race's count `cs[i]` known, the margin is their product,
      and it exists whenever every race can be won and the product fits in
      `u32`. */
  lemma MarginIsProduct(records: seq<RaceRecord>, cs: seq<nat>)
    requires |cs| == |records| && forall i :: 0 <= i < |records| ==> WinCount(records[i]) == Some(cs[i])
    ensures ComputeErrorMargin(records).Ok? ==> ComputeErrorMargin(records).value == Product(cs)
    ensures records != [] && (forall i :: 0 <= i < |cs| ==> cs[i] >= 1) && Product(cs) < U32_LIMIT ==>
      ComputeErrorMargin(records).Ok?
  {
    if records != [] {
      MarginFromValue(cs[0], records[1..], cs[1..]);
      assert Product(cs) == cs[0] * Product(cs[1..]);
      if (forall i :: 0 <= i < |cs| ==> cs[i] >= 1) && Product(cs) < U32_LIMIT {
        MarginFromSucceeds(cs[0], records[1..], cs[1..]);
      }
    }
  }

  /** The margin fails with `NoRaces` exactly on an empty list, and with
      `Overflow` whenever some race's distances overflow. */
  lemma MarginErrors(records: seq<RaceRecord>)
    ensures ComputeErrorMargin(records) == Err(NoRaces) <==> records == []
    ensures ComputeErrorMargin(records).Err? && records != [] ==> ComputeErrorMargin(records) == Err(Overflow)
    ensures (exists i :: 0 <= i < |records| && WinCount(records[i]).None?) ==> ComputeErrorMargin(records).Err?
  {
    if records != [] && WinCount(records[0]).Some? {
      MarginFromErrors(WinCount(records[0]).value, records[1..]);
      if i :| 0 <= i < |records| && WinCount(records[i]).None? {
        MarginFromNeedsCounts(WinCount(records[0]).value, records[1..], i - 1);
      }
    }
  }

  lemma {:induction false} MarginFromErrors(acc: nat, records: seq<RaceRecord>)
    ensures MarginFrom(acc, records).Err? ==> MarginFrom(acc, records) == Err(Overflow)
    decreases |records|
  {
    if records != [] && WinCount(records[0]).Some? {
      MarginFromErrors(acc * WinCount(records[0]).value, records[1..]);
    }
  }

  lemma {:induction false} MarginFromNeedsCounts(acc: nat, records: seq<RaceRecord>, i: nat)
    requires i < |records| && WinCount(records[i]).None?
    ensures MarginFrom(acc, records).Err?
    decreases |records|
  {
    if i > 0 && WinCount(records[0]).Some? {
      MarginFromNeedsCounts(acc * WinCount(records[0]).value, records[1..], i - 1);
    }
  }

  /** The two lines of a race table: the label, then the numbers in
      decimal, separated by single spaces. */
  function RaceTable(records: seq<RaceRecord>): string
  {
    TableLine("Time:", Times(records)) + "\n" + TableLine("Distance:", Records(records))
  }

  function TableLine(tag: string, values: seq<nat>): string
  {
    Unwords([tag] + seq(|values|, i requires 0 <= i < |values| => ToDecimal(values[i])))
  }

  function Times(records: seq<RaceRecord>): (ts: seq<nat>)
    ensures |ts| == |records| && forall i :: 0 <= i < |records| ==> ts[i] == records[i].time
  {
    seq(|records|, i requires 0 <= i < |records| => records[i].time)
  }

  function Records(records: seq<RaceRecord>): (ds: seq<nat>)
    ensures |ds| == |records| && forall i :: 0 <= i < |records| ==> ds[i] == records[i].distance
  {
    seq(|records|, i requires 0 <= i < |records| => records[i].distance)
  }

  /** Reading a rendered table gives back the races whose numbers are
      `u32`s. */
  lemma ReadRaceTable(records: seq<RaceRecord>)
    requires forall i :: 0 <= i < |records| ==> records[i].time < U32_LIMIT && records[i].distance < U32_LIMIT
    ensures ReadRaceData(RaceTable(records)) == Ok(records)
  {
    var ts, ds := Times(records), Records(records);
    var line0, line1 := TableLine("Time:", ts), TableLine("Distance:", ds);
    var input := RaceTable(records);
    assert input == line0 + "\n" + line1;
    LabelsAreWords();
    ReadTableLine("Time:", ts);
    ReadTableLine("Distance:", ds);
    LinesOfTwo(line0, line1);
    ReadTwoLines(input, ts, ds);
    PairTimesRecords(records);
  }

  lemma PairTimesRecords(records: seq<RaceRecord>)
    ensures Pair(Times(records), Records(records)) == records
  {
  }

  function Pair(ts: seq<nat>, ds: seq<nat>): seq<RaceRecord>
    requires |ts| == |ds|
  {
    seq(|ts|, i requires 0 <= i < |ts| => RaceRecord(ts[i], ds[i]))
  }

  lemma ReadTwoLines(input: string, ts: seq<nat>, ds: seq<nat>)
    requires |Lines(input)| == 2 && |ts| == |ds|
    requires Numbers(Lines(input)[0]) == Some(ts) && Numbers(Lines(input)[1]) == Some(ds)
    ensures ReadRaceData(input) == Ok(Pair(ts, ds))
  {
  }

  /** One line of the table reads back as its numbers. */
  lemma ReadTableLine(tag: string, values: seq<nat>)
    requires tag != [] && NoWhitespace(tag)
    requires forall i :: 0 <= i < |values| ==> values[i] < U32_LIMIT
    ensures NoLineBreak(TableLine(tag, values)) && TableLine(tag, values) != []
    ensures Numbers(TableLine(tag, values)) == Some(values)
  {
    LabelledLine(tag, seq(|values|, i requires 0 <= i < |values| => ToDecimal(values[i])));
    NumbersOfDecimals(TableLine(tag, values), values);
  }

  /** A line whose numbers are rendered `u32`s reads back as those numbers. */
  lemma NumbersOfDecimals(line: string, values: seq<nat>)
    requires forall i :: 0 <= i < |values| ==> values[i] < U32_LIMIT
    requires AfterLabel(line) == seq(|values|, i requires 0 <= i < |values| => ToDecimal(values[i]))
    ensures Numbers(line) == Some(values)
  {
    var ts := AfterLabel(line);
    NumbersSpec(line);
    forall i | 0 <= i < |values|
      ensures ParseU32(ts[i]) == Some(values[i])
    {
      ParseToDecimal(values[i], U32_LIMIT);
    }
    assert Numbers(line).Some?;
    assert Numbers(line).value == values;
  }

  /** The example's races and their margin 288 (4 * 8 * 9). */
  lemma ExampleMargin()
    ensures ComputeErrorMargin([RaceRecord(7, 9), RaceRecord(15, 40), RaceRecord(30, 200)]) == Ok(288)
  {
    ExampleCount7();
    ExampleCount15();
    ExampleCount30();
    var records := [RaceRecord(7, 9), RaceRecord(15, 40), RaceRecord(30, 200)];
    assert MarginFrom(32, records[2..]) == Ok(288);
    assert MarginFrom(4, records[1..]) == Ok(288);
  }

  lemma ExampleCount7()
    ensures WinCount(RaceRecord(7, 9)) == Some(4)
  {
    NoOverflowBelowSquare(7, U32_LIMIT);
    ExampleDistances();
  }

  lemma ExampleCount15()
    ensures WinCount(RaceRecord(15, 40)) == Some(8)
  {
    NoOverflowBelowSquare(15, U32_LIMIT);
    ExampleKept15();
  }

  lemma ExampleCount30()
    ensures WinCount(RaceRecord(30, 200)) == Some(9)
  {
    NoOverflowBelowSquare(30, U32_LIMIT);
    ExampleKept30();
  }
}
