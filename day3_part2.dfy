/** Day 3, part 2: `read_data` lists every part number with its position,
    then `find_gear_ratio` adds, for every `*` with exactly two adjacent
    parts, the product of their values (day3p2.rs). */
module Day3Part2 {
  import opened Common
  import opened Text
  import opened Day3Schematic

  /** `PartInfo`: a run of digits, its first column, its row, its length
      and its digits. */
  datatype PartInfo = PartInfo(column: nat, row: nat, length: nat, value: string)

  /** The part whose run ends at column `j` of line `row`. */
  function PartAt(line: string, row: nat, j: nat): (p: PartInfo)
    requires RunEndsAt(line, j)
    ensures IsRun(line, p.column, j) && p.length == j - p.column + 1 && p.row == row
    ensures p.value == line[p.column..j + 1]
  {
    var min := RunStart(line, j);
    PartInfo(min, row, j - min + 1, line[min..j + 1])
  }

  /** The parts of line `row` whose runs end before column `n`, left to
      right. */
  function RowParts(line: string, row: nat, n: nat): seq<PartInfo>
    requires n <= |line|
  {
    if n == 0 then []
    else RowParts(line, row, n - 1) + (if RunEndsAt(line, n - 1) then [PartAt(line, row, n - 1)] else [])
  }

  /** The parts of the first `m` lines, row by row. */
  function PartsOf(lines: seq<string>, m: nat): seq<PartInfo>
    requires m <= |lines|
  {
    if m == 0 then [] else PartsOf(lines, m - 1) + RowParts(lines[m - 1], m - 1, |lines[m - 1]|)
  }

  /** The loop over one line of `read_data`: `start_index`, `length` and
      `value` follow the current run, which is pushed at the first
      non-digit after it or at the end of the line. */
  method ReadRow(line: string, row: nat) returns (parts: seq<PartInfo>)
    ensures parts == RowParts(line, row, |line|)
  {
    parts := [];
    var startIndex: Option<nat> := None;
    var length: nat := 0;
    var value: string := [];
    for x := 0 to |line|
      invariant startIndex.None? ==>
        parts == RowParts(line, row, x) && (x == 0 || !IsDigit(line[x - 1])) && length == 0 && value == []
      invariant startIndex.Some? ==>
        0 < x && IsDigit(line[x - 1]) && startIndex.value == RunStart(line, x - 1) &&
        length == x - startIndex.value && value == line[startIndex.value..x] &&
        parts == RowParts(line, row, x - 1)
    {
      var c := line[x];
      if IsDigit(c) {
        RunStartStep(line, x);
        if startIndex.None? {
          startIndex := Some(x);
        } else {
          RowPartsStep(line, row, x - 1);
        }
        RunGrows(line, startIndex.value, x);
        length := length + 1;
        value := value + [c];
      } else {
        RowPartsStep(line, row, x);
        if startIndex.Some? {
          RowPartsStep(line, row, x - 1);
          parts := parts + [PartInfo(startIndex.value, row, length, value)];
          startIndex := None;
          length := 0;
          value := [];
        }
      }
    }
    if startIndex.Some? {
      RowPartsStep(line, row, |line| - 1);
      parts := parts + [PartInfo(startIndex.value, row, length, value)];
    }
  }

  /** A digit starts a run, or continues the run of the digit before it. */
  lemma RunStartStep(line: string, x: nat)
    requires x < |line| && IsDigit(line[x])
    ensures x == 0 || !IsDigit(line[x - 1]) ==> RunStart(line, x) == x
    ensures x > 0 && IsDigit(line[x - 1]) ==> RunStart(line, x) == RunStart(line, x - 1)
  {
  }

  /** A run's digits grow by the next column's character. */
  lemma RunGrows(line: string, start: nat, x: nat)
    requires start <= x < |line|
    ensures line[start..x + 1] == line[start..x] + [line[x]]
  {
  }

  /** Column `x` adds the part whose run ends there, if one does. */
  lemma RowPartsStep(line: string, row: nat, x: nat)
    requires x < |line|
    ensures !RunEndsAt(line, x) ==> RowParts(line, row, x + 1) == RowParts(line, row, x)
    ensures RunEndsAt(line, x) ==> RowParts(line, row, x + 1) == RowParts(line, row, x) + [PartAt(line, row, x)]
  {
  }

  /** `read_data`: the parts of every line (Rust's `lines()`). */
  method ReadData(schematic: string) returns (parts: seq<PartInfo>)
    ensures parts == PartsOf(Lines(schematic), |Lines(schematic)|)
  {
    var lines := Lines(schematic);
    parts := [];
    for row := 0 to |lines|
      invariant parts == PartsOf(lines, row)
    {
      var rowParts := ReadRow(lines[row], row);
      parts := parts + rowParts;
    }
  }

  /** Every listed part is a maximal run of its line, with its digits as
      value, and the parts of a line come left to right with at least one
      column between them. */
  lemma {:induction false} RowPartsSound(line: string, row: nat, n: nat)
    requires n <= |line|
    ensures forall k :: 0 <= k < |RowParts(line, row, n)| ==>
      var p := RowParts(line, row, n)[k];
      p.row == row && p.length >= 1 && p.column + p.length <= n &&
      IsRun(line, p.column, p.column + p.length - 1) && p.value == line[p.column..p.column + p.length]
    ensures forall k, l :: 0 <= k < l < |RowParts(line, row, n)| ==>
      RowParts(line, row, n)[k].column + RowParts(line, row, n)[k].length < RowParts(line, row, n)[l].column
  {
    if n > 0 {
      RowPartsSound(line, row, n - 1);
      if RunEndsAt(line, n - 1) {
        var ps := RowParts(line, row, n - 1);
        var p := PartAt(line, row, n - 1);
        forall k | 0 <= k < |ps|
          ensures ps[k].column + ps[k].length < p.column
        {
        }
      }
    }
  }

  /** Every maximal run of a line is listed. */
  lemma {:induction false} RowPartsComplete(line: string, row: nat, n: nat, min: nat, max: nat)
    requires n <= |line| && IsRun(line, min, max) && max < n
    ensures PartInfo(min, row, max - min + 1, line[min..max + 1]) in RowParts(line, row, n)
  {
    RunsAtEnds(line, min, max);
    if max < n - 1 {
      RowPartsComplete(line, row, n - 1, min, max);
    }
  }

  /** The listed parts come row by row. */
  lemma {:induction false} PartsRowMajor(lines: seq<string>, m: nat)
    requires m <= |lines|
    ensures forall k :: 0 <= k < |PartsOf(lines, m)| ==> PartsOf(lines, m)[k].row < m
    ensures forall k, l :: 0 <= k < l < |PartsOf(lines, m)| ==> PartsOf(lines, m)[k].row <= PartsOf(lines, m)[l].row
  {
    if m > 0 {
      PartsRowMajor(lines, m - 1);
      RowPartsSound(lines[m - 1], m - 1, |lines[m - 1]|);
    }
  }

  /** The test of lines 69-80 for a part against a `*` at row `r`, column
      `c`, with Rust's short-circuit order: `row_index - 1` is only
      computed when the part is not more than a row below, and
      `col_index - 1` only when the part's column is not `c`; on `usize`
      either underflows to a panic (`None`) at row or column 0. */
  function Touches(p: PartInfo, r: nat, c: nat): Option<bool>
  {
    if p.row > r + 1 then Some(false)
    else if r == 0 then None
    else if p.row < r - 1 then Some(false)
    else if p.column == c then Some(true)
    else if c == 0 then None
    else Some(p.column == c - 1 || p.column == c + 1 || p.column + p.length == c || p.column + p.length == c + 1)
  }

  /** Away from row and column 0 the test never panics: the part lies in
      the rows around the star, and its first column is within one column
      of the star or its last column is the star's or the one before. */
  lemma TouchesSpec(p: PartInfo, r: nat, c: nat)
    requires r >= 1 && c >= 1
    ensures Touches(p, r, c) ==
      Some(r - 1 <= p.row <= r + 1 && (c - 1 <= p.column <= c + 1 || c <= p.column + p.length <= c + 1))
  {
  }

  /** A star in row 0 panics unless the part is more than a row below it;
      one in column 0 (of a later row) panics for a part in the nearby rows
      that does not start in column 0. */
  lemma TouchesUnderflow(p: PartInfo, r: nat, c: nat)
    ensures r == 0 ==> (Touches(p, r, c).None? <==> p.row <= 1)
    ensures r >= 1 && c == 0 ==> (Touches(p, r, c).None? <==> r - 1 <= p.row <= r + 1 && p.column != 0)
  {
  }

  /** For parts of one to three digits the test is exactly "some digit of
      the part is within one row and one column of the star"; a longer part
      whose digits run past the star on both sides is missed. */
  lemma TouchesShortParts(p: PartInfo, r: nat, c: nat)
    requires r >= 1 && c >= 1 && 1 <= p.length <= 3
    ensures Touches(p, r, c) ==
      Some(r - 1 <= p.row <= r + 1 && p.column <= c + 1 && c - 1 <= p.column + p.length - 1)
  {
  }

  /** A five-digit part in columns 0 to 4 of row 0 lies right above a star
      in row 1, column 2: its middle digit touches the star, yet neither
      end of the part is within a column of it, and the test says no. */
  lemma LongPartMissed()
    ensures var p := PartInfo(0, 0, 5, "12345");
      p.row == 1 - 1 && p.column <= 2 <= p.column + p.length - 1 &&
      Touches(p, 1, 2) == Some(false)
  {
  }

  /** The parts touching the star at row `r`, column `c`, in list order;
      `None` once a test panics. */
  function Neighbours(parts: seq<PartInfo>, r: nat, c: nat): Option<seq<PartInfo>>
  {
    if parts == [] then Some([])
    else
      match Neighbours(parts[..|parts| - 1], r, c)
      case None => None
      case Some(ns) =>
        match Touches(parts[|parts| - 1], r, c)
        case None => None
        case Some(t) => Some(if t then ns + [parts[|parts| - 1]] else ns)
  }

  /** The neighbours are exactly the touching parts, in order, and the
      collection panics exactly when one of the tests does. */
  lemma {:induction false} NeighboursSpec(parts: seq<PartInfo>, r: nat, c: nat)
    ensures Neighbours(parts, r, c).None? <==> exists k :: 0 <= k < |parts| && Touches(parts[k], r, c).None?
    ensures Neighbours(parts, r, c).Some? ==>
      (forall p :: p in Neighbours(parts, r, c).value <==> p in parts && Touches(p, r, c) == Some(true)) &&
      |Neighbours(parts, r, c).value| <= |parts|
  {
    if parts != [] {
      var front := parts[..|parts| - 1];
      NeighboursSpec(front, r, c);
      assert parts == front + [parts[|parts| - 1]];
      assert forall k :: 0 <= k < |front| ==> front[k] == parts[k];
      if Neighbours(parts, r, c).Some? {
        assert forall k :: 0 <= k < |parts| ==> Touches(parts[k], r, c).Some?;
      }
    }
  }

  /** What a star adds (lines 83-87): with exactly two neighbours the
      product of their values (each parsed with `unwrap`, multiplied in
      `i32`), else nothing; `None` for a panic. */
  function StarValue(parts: seq<PartInfo>, r: nat, c: nat): Option<int>
  {
    match Neighbours(parts, r, c)
    case None => None
    case Some(ns) =>
      if |ns| != 2 then Some(0)
      else
        match (ParseI32(ns[0].value), ParseI32(ns[1].value))
        case (Some(v1), Some(v2)) => if FitsI32(v1 * v2) then Some(v1 * v2) else None
        case _ => None
  }

  /** A star adds something only with exactly two neighbours, and then the
      product of their values. */
  lemma StarValueSpec(parts: seq<PartInfo>, r: nat, c: nat)
    ensures StarValue(parts, r, c).Some? && StarValue(parts, r, c).value != 0 ==>
      var ns := Neighbours(parts, r, c).value;
      |ns| == 2 && StarValue(parts, r, c).value == ParseI32(ns[0].value).value * ParseI32(ns[1].value).value
    ensures Neighbours(parts, r, c).Some? && |Neighbours(parts, r, c).value| != 2 ==> StarValue(parts, r, c) == Some(0)
  {
  }

  /** The loop over the parts for one star (lines 67-81). */
  method AdjacentNumbers(parts: seq<PartInfo>, r: nat, c: nat) returns (ns: Option<seq<PartInfo>>)
    ensures ns == Neighbours(parts, r, c)
  {
    var adjacent: seq<PartInfo> := [];
    for k := 0 to |parts|
      invariant Neighbours(parts[..k], r, c) == Some(adjacent)
    {
      var part := parts[k];
      assert parts[..k + 1][..k] == parts[..k];
      if part.row > r + 1 {
        continue;
      }
      if r == 0 {
        NeighboursFailLater(parts, k + 1, r, c);
        return None;
      }
      if part.row < r - 1 {
        continue;
      }
      if part.column == c {
        adjacent := adjacent + [part];
        continue;
      }
      if c == 0 {
        NeighboursFailLater(parts, k + 1, r, c);
        return None;
      }
      if part.column == c - 1 || part.column == c + 1 || part.column + part.length == c || part.column + part.length == c + 1 {
        adjacent := adjacent + [part];
      }
    }
    assert parts[..|parts|] == parts;
    return Some(adjacent);
  }

  lemma {:induction false} NeighboursFailLater(parts: seq<PartInfo>, k: nat, r: nat, c: nat)
    requires k <= |parts| && Neighbours(parts[..k], r, c).None?
    ensures Neighbours(parts, r, c).None?
    decreases |parts|
  {
    if k < |parts| {
      var front := parts[..|parts| - 1];
      assert front[..k] == parts[..k];
      NeighboursFailLater(front, k, r, c);
    } else {
      assert parts[..k] == parts;
    }
  }

  /** The body of lines 66-88 for the character at row `r`, column `c`. */
  method StarAt(parts: seq<PartInfo>, r: nat, c: nat) returns (v: Option<int>)
    ensures v == StarValue(parts, r, c)
  {
    var ns := AdjacentNumbers(parts, r, c);
    if ns.None? {
      return None;
    }
    var adjacent := ns.value;
    if |adjacent| != 2 {
      return Some(0);
    }
    var v1 := ParseI32(adjacent[0].value);
    var v2 := ParseI32(adjacent[1].value);
    if v1.None? || v2.None? {
      return None;
    }
    if !FitsI32(v1.value * v2.value) {
      return None;
    }
    return Some(v1.value * v2.value);
  }

  /** What the stars before column `n` of line `r` add, left to right;
      `None` once one of them panics. */
  function RowRatios(lines: seq<string>, parts: seq<PartInfo>, r: nat, n: nat): Option<seq<int>>
    requires r < |lines| && n <= |lines[r]|
  {
    if n == 0 then Some([])
    else
      match RowRatios(lines, parts, r, n - 1)
      case None => None
      case Some(vs) =>
        if lines[r][n - 1] != '*' then Some(vs)
        else
          match StarValue(parts, r, n - 1)
          case None => None
          case Some(v) => Some(vs + [v])
  }

  /** What the stars of the first `m` lines add, row by row. */
  function Ratios(lines: seq<string>, parts: seq<PartInfo>, m: nat): Option<seq<int>>
    requires m <= |lines|
  {
    if m == 0 then Some([])
    else
      match Ratios(lines, parts, m - 1)
      case None => None
      case Some(a) =>
        match RowRatios(lines, parts, m - 1, |lines[m - 1]|)
        case None => None
        case Some(b) => Some(a + b)
  }

  lemma {:induction false} RowRatiosPrefix(lines: seq<string>, parts: seq<PartInfo>, r: nat, n: nat, m: nat)
    requires r < |lines| && n <= m <= |lines[r]|
    ensures RowRatios(lines, parts, r, n).None? ==> RowRatios(lines, parts, r, m).None?
    ensures RowRatios(lines, parts, r, m).Some? ==>
      exists rest :: RowRatios(lines, parts, r, m).value == RowRatios(lines, parts, r, n).value + rest
    decreases m
  {
    if n < m {
      RowRatiosPrefix(lines, parts, r, n, m - 1);
      if RowRatios(lines, parts, r, m).Some? {
        var rest :| RowRatios(lines, parts, r, m - 1).value == RowRatios(lines, parts, r, n).value + rest;
        var full := RowRatios(lines, parts, r, m).value;
        if lines[r][m - 1] == '*' {
          assert full == RowRatios(lines, parts, r, n).value + (rest + [full[|full| - 1]]);
        } else {
          assert full == RowRatios(lines, parts, r, n).value + rest;
        }
      }
    } else {
      if RowRatios(lines, parts, r, m).Some? {
        assert RowRatios(lines, parts, r, m).value == RowRatios(lines, parts, r, n).value + [];
      }
    }
  }

  lemma {:induction false} RatiosPrefix(lines: seq<string>, parts: seq<PartInfo>, n: nat, m: nat)
    requires n <= m <= |lines|
    ensures Ratios(lines, parts, n).None? ==> Ratios(lines, parts, m).None?
    ensures Ratios(lines, parts, m).Some? ==>
      exists rest :: Ratios(lines, parts, m).value == Ratios(lines, parts, n).value + rest
    decreases m
  {
    if n < m {
      RatiosPrefix(lines, parts, n, m - 1);
      if Ratios(lines, parts, m).Some? {
        var rest :| Ratios(lines, parts, m - 1).value == Ratios(lines, parts, n).value + rest;
        var b := RowRatios(lines, parts, m - 1, |lines[m - 1]|).value;
        assert Ratios(lines, parts, m).value == Ratios(lines, parts, n).value + (rest + b);
      }
    } else {
      if Ratios(lines, parts, m).Some? {
        assert Ratios(lines, parts, m).value == Ratios(lines, parts, n).value + [];
      }
    }
  }

  /** The loop over the characters of line `r` in `find_gear_ratio`. */
  method ScanStars(lines: seq<string>, parts: seq<PartInfo>, r: nat, sum0: int, ghost done: seq<int>)
    returns (res: Option<int>, ghost added: seq<int>)
    requires r < |lines| && RunningSumsFit(done) && sum0 == Sum(done)
    ensures res.Some? ==>
      RowRatios(lines, parts, r, |lines[r]|) == Some(added) && RunningSumsFit(done + added) && res.value == Sum(done + added)
    ensures res.None? ==>
      RowRatios(lines, parts, r, |lines[r]|).None? || !RunningSumsFit(done + RowRatios(lines, parts, r, |lines[r]|).value)
  {
    var line := lines[r];
    var sum := sum0;
    added := [];
    assert done + added == done;
    for c := 0 to |line|
      invariant RowRatios(lines, parts, r, c) == Some(added)
      invariant RunningSumsFit(done + added) && sum == Sum(done + added)
    {
      if line[c] == '*' {
        var v := StarAt(parts, r, c);
        if v.None? {
          RowRatiosPrefix(lines, parts, r, c + 1, |line|);
          return None, added;
        }
        assert RowRatios(lines, parts, r, c + 1) == Some(added + [v.value]);
        RunningSumsSnoc(done + added, v.value);
        SumAppend(done + added, v.value);
        assert done + added + [v.value] == done + (added + [v.value]);
        if !FitsI32(sum + v.value) {
          RowRatiosPrefix(lines, parts, r, c + 1, |line|);
          if RowRatios(lines, parts, r, |line|).Some? {
            ghost var rest :| RowRatios(lines, parts, r, |line|).value == added + [v.value] + rest;
            assert done + RowRatios(lines, parts, r, |line|).value == (done + added + [v.value]) + rest;
            OverflowSpoils(done + added + [v.value], done + RowRatios(lines, parts, r, |line|).value);
          }
          return None, added;
        }
        sum := sum + v.value;
        added := added + [v.value];
      }
    }
    return Some(sum), added;
  }

  /** `find_gear_ratio`: the stars of every line in turn; `None` when a test
      or a parse panics or the `i32` arithmetic overflows, otherwise the sum
      of what the stars add. */
  method FindGearRatio(schematic: string, parts: seq<PartInfo>) returns (r: Option<int>)
    ensures r.Some? <==>
      Ratios(Lines(schematic), parts, |Lines(schematic)|).Some? &&
      RunningSumsFit(Ratios(Lines(schematic), parts, |Lines(schematic)|).value)
    ensures r.Some? ==> r.value == Sum(Ratios(Lines(schematic), parts, |Lines(schematic)|).value)
  {
    var lines := Lines(schematic);
    var sum := 0;
    ghost var done: seq<int> := [];
    assert RunningSumsFit(done) by {
      assert done[..0] == [];
    }
    for row := 0 to |lines|
      invariant Ratios(lines, parts, row) == Some(done)
      invariant RunningSumsFit(done) && sum == Sum(done)
    {
      var res;
      ghost var added;
      res, added := ScanStars(lines, parts, row, sum, done);
      if res.None? {
        RatiosPrefix(lines, parts, row + 1, |lines|);
        if Ratios(lines, parts, |lines|).Some? {
          ghost var b := RowRatios(lines, parts, row, |lines[row]|).value;
          assert Ratios(lines, parts, row + 1) == Some(done + b);
          ghost var rest :| Ratios(lines, parts, |lines|).value == done + b + rest;
          OverflowSpoils(done + b, Ratios(lines, parts, |lines|).value);
        }
        return None;
      }
      sum := res.value;
      done := done + added;
    }
    return Some(sum);
  }
}
