/** Day 3, part 1: the sum of the part numbers that touch a symbol, a row
    at a time (`compute_sum` in day3p1.rs). A run is checked against its
    own line, then the line above, then the line below, each over the
    columns `min - 1 ..= max + 1` (`is_adjacent_symbol`). */
module Day3Part1 {
  import opened Common
  import opened Text
  import opened Day3Schematic

  /** `is_ascii_punctuation`, except `.`. */
  predicate IsSymbol(c: char)
  {
    c != '.' && (('!' <= c <= '/') || (':' <= c <= '@') || ('[' <= c <= '`') || ('{' <= c <= '~'))
  }

  /** The columns `is_adjacent_symbol` looks at between `lo` and `hi`: only
      those strictly between 0 and the length of the line being scanned
      for runs. */
  predicate Window(e: int, lo: int, hi: int, len: int)
  {
    lo <= e <= hi && 0 < e < len
  }

  /** The loop of `is_adjacent_symbol` from column `dx` on: `Some(true)` at
      the first symbol, `None` at a looked-at column past the end of `row`
      (the `unwrap` on `nth`), `Some(false)` when the window is used up. */
  function ScanFrom(row: string, dx: int, hi: int, len: int): Option<bool>
    decreases hi + 1 - dx
  {
    if dx > hi then Some(false)
    else if 0 < dx < len then
      if dx >= |row| then None
      else if IsSymbol(row[dx]) then Some(true)
      else ScanFrom(row, dx + 1, hi, len)
    else ScanFrom(row, dx + 1, hi, len)
  }

  function Adjacent(row: string, min: int, max: int, len: int): Option<bool>
  {
    ScanFrom(row, min - 1, max + 1, len)
  }

  /** `is_adjacent_symbol`. */
  method IsAdjacentSymbol(row: string, min: int, max: int, len: int) returns (r: Option<bool>)
    ensures r == Adjacent(row, min, max, len)
  {
    var dx := min - 1;
    while dx <= max + 1
      invariant ScanFrom(row, dx, max + 1, len) == Adjacent(row, min, max, len)
      decreases max + 2 - dx
    {
      if 0 < dx < len {
        if dx >= |row| {
          return None;
        }
        if IsSymbol(row[dx]) {
          return Some(true);
        }
      }
      dx := dx + 1;
    }
    return Some(false);
  }

  /** What the scan means: when every looked-at column exists in `row`,
      the answer is whether one of them holds a symbol; `Some(true)` always
      has such a witness; `None` only comes from a looked-at column past
      the end of `row`. */
  lemma {:induction false} ScanFromSpec(row: string, lo: int, hi: int, len: int)
    ensures (forall e :: Window(e, lo, hi, len) ==> e < |row|) ==>
      ScanFrom(row, lo, hi, len) == Some(exists e :: Window(e, lo, hi, len) && e < |row| && IsSymbol(row[e]))
    ensures ScanFrom(row, lo, hi, len) == Some(true) ==>
      exists e :: Window(e, lo, hi, len) && e < |row| && IsSymbol(row[e])
    ensures ScanFrom(row, lo, hi, len).None? ==> exists e :: Window(e, lo, hi, len) && e >= |row|
    decreases hi + 1 - lo
  {
    if lo <= hi {
      var next := lo + 1;
      ScanFromSpec(row, next, hi, len);
      assert forall e :: Window(e, next, hi, len) ==> Window(e, lo, hi, len);
      assert forall e :: Window(e, lo, hi, len) && e != lo ==> Window(e, next, hi, len);
      if 0 < lo < len && lo < |row| {
        if IsSymbol(row[lo]) {
          assert Window(lo, lo, hi, len) && lo < |row| && IsSymbol(row[lo]);
        } else if forall e :: Window(e, lo, hi, len) ==> e < |row| {
          assert forall e :: Window(e, next, hi, len) ==> e < |row|;
          assert (exists e :: Window(e, lo, hi, len) && e < |row| && IsSymbol(row[e])) ==
            (exists e :: Window(e, next, hi, len) && e < |row| && IsSymbol(row[e]));
        }
      } else if 0 < lo < len {
        assert Window(lo, lo, hi, len) && lo >= |row|;
      } else if forall e :: Window(e, lo, hi, len) ==> e < |row| {
        assert forall e :: Window(e, next, hi, len) ==> e < |row|;
        assert (exists e :: Window(e, lo, hi, len) && e < |row| && IsSymbol(row[e])) ==
          (exists e :: Window(e, next, hi, len) && e < |row| && IsSymbol(row[e]));
      }
    } else {
      assert forall e :: !Window(e, lo, hi, len);
    }
  }

  /** Column 0 is never looked at (the test `dx > 0`): changing it changes
      nothing. */
  lemma {:induction false} ScanSkipsColumnZero(row: string, c: char, dx: int, hi: int, len: int)
    requires |row| > 0
    ensures ScanFrom(row[0 := c], dx, hi, len) == ScanFrom(row, dx, hi, len)
    decreases hi + 1 - dx
  {
    if dx <= hi {
      ScanSkipsColumnZero(row, c, dx + 1, hi, len);
    }
  }

  /** Lines 31-42 of `compute_sum`: the run's own line, then the line
      above if there is one, then the line below if there is one, each
      only while no symbol has been found. */
  function CheckRun(lines: seq<string>, i: nat, min: nat, max: nat): Option<bool>
    requires i < |lines|
  {
    var len := |lines[i]|;
    var here := Adjacent(lines[i], min, max, len);
    if here != Some(false) then here
    else
      var above := if i > 0 then Adjacent(lines[i - 1], min, max, len) else Some(false);
      if above != Some(false) then above
      else if i + 1 < |lines| then Adjacent(lines[i + 1], min, max, len)
      else Some(false)
  }

  /** `lines[r]` is one of the (up to three) lines a run in line `i` is
      checked against. */
  predicate Near(lines: seq<string>, i: int, r: int)
  {
    0 <= r < |lines| && i - 1 <= r <= i + 1
  }

  /** Column `e` of line `r` is looked at for the run `min ..= max` of
      line `i`. */
  predicate LookedAt(lines: seq<string>, i: nat, min: int, max: int, r: int, e: int)
    requires i < |lines|
  {
    Near(lines, i, r) && Window(e, min - 1, max + 1, |lines[i]|)
  }

  /** A symbol at column `e` of line `r`. */
  predicate SymbolAt(lines: seq<string>, r: int, e: int)
  {
    0 <= r < |lines| && 0 <= e < |lines[r]| && IsSymbol(lines[r][e])
  }

  /** The test of a run means what the puzzle asks, restricted to the
      columns `1 .. len` of its own line's length: when the nearby lines
      are long enough, it holds exactly when a symbol sits in one of them
      within one column of the run. A `None` (the panic) only comes from a
      nearby line too short for a looked-at column. */
  lemma CheckRunSpec(lines: seq<string>, i: nat, min: nat, max: nat)
    requires i < |lines|
    ensures (forall r, e :: LookedAt(lines, i, min, max, r, e) ==> e < |lines[r]|) ==>
      CheckRun(lines, i, min, max) == Some(exists r, e :: LookedAt(lines, i, min, max, r, e) && SymbolAt(lines, r, e))
    ensures CheckRun(lines, i, min, max).None? ==> exists r, e :: LookedAt(lines, i, min, max, r, e) && e >= |lines[r]|
  {
    RowScan(lines, i, min, max, i);
    if i > 0 {
      RowScan(lines, i, min, max, i - 1);
    }
    if i + 1 < |lines| {
      RowScan(lines, i, min, max, i + 1);
    }
    if forall r, e :: LookedAt(lines, i, min, max, r, e) ==> e < |lines[r]| {
      var found := exists r, e :: LookedAt(lines, i, min, max, r, e) && SymbolAt(lines, r, e);
      if found {
        var r, e :| LookedAt(lines, i, min, max, r, e) && SymbolAt(lines, r, e);
        assert RowHasSymbol(lines, i, min, max, r);
      }
    }
  }

  /** Some looked-at column of line `r` holds a symbol. */
  ghost predicate RowHasSymbol(lines: seq<string>, i: nat, min: int, max: int, r: int)
    requires i < |lines|
  {
    exists e :: LookedAt(lines, i, min, max, r, e) && SymbolAt(lines, r, e)
  }

  /** `is_adjacent_symbol` on one nearby line, in the terms of
      `CheckRunSpec`. */
  lemma RowScan(lines: seq<string>, i: nat, min: nat, max: nat, r: nat)
    requires i < |lines| && Near(lines, i, r)
    ensures (forall e :: LookedAt(lines, i, min, max, r, e) ==> e < |lines[r]|) ==>
      Adjacent(lines[r], min, max, |lines[i]|) == Some(RowHasSymbol(lines, i, min, max, r))
    ensures Adjacent(lines[r], min, max, |lines[i]|).None? ==> exists e :: LookedAt(lines, i, min, max, r, e) && e >= |lines[r]|
  {
    var len, lo, hi := |lines[i]|, min - 1, max + 1;
    ScanFromSpec(lines[r], lo, hi, len);
    assert forall e :: LookedAt(lines, i, min, max, r, e) <==> Window(e, lo, hi, len);
  }

  /** Lines 31-42 of `compute_sum`, with the panics of the calls as `None`. */
  method RunIsValid(lines: seq<string>, i: nat, min: nat, max: nat) returns (r: Option<bool>)
    requires i < |lines|
    ensures r == CheckRun(lines, i, min, max)
  {
    var len := |lines[i]|;
    var found := IsAdjacentSymbol(lines[i], min, max, len);
    if found.None? {
      return None;
    }
    var valid := found.value;
    if i > 0 && !valid {
      found := IsAdjacentSymbol(lines[i - 1], min, max, len);
      if found.None? {
        return None;
      }
      valid := found.value;
    }
    if i + 1 < |lines| && !valid {
      found := IsAdjacentSymbol(lines[i + 1], min, max, len);
      if found.None? {
        return None;
      }
      valid := found.value;
    }
    return Some(valid);
  }

  /** `parse_number_from_char_array`: the characters as an `i32`, or 0 when
      they do not parse. */
  function RunValue(digits: string): int
  {
    match ParseI32(digits)
    case Some(v) => v
    case None => 0
  }

  method ParseNumberFromCharArray(buffer: seq<char>) returns (v: int)
    ensures v == RunValue(buffer)
  {
    var number: string := [];
    for k := 0 to |buffer|
      invariant number == buffer[..k]
    {
      number := number + [buffer[k]];
    }
    assert number == buffer;
    var parsed := ParseI32(number);
    if parsed.Some? {
      return parsed.value;
    }
    return 0;
  }

  /** A run of digits is worth its decimal value, or 0 when that exceeds
      `i32::MAX`. */
  lemma RunValueSpec(digits: string)
    requires digits != [] && AllDigits(digits)
    ensures RunValue(digits) == if DecimalValue(digits) <= I32_MAX then DecimalValue(digits) else 0
  {
    assert IsDigit(digits[0]);
  }

  /** What the run ending at column `j` of line `i` adds: its value when it
      touches a symbol, 0 when it does not, `None` for a panic. */
  function RunContribution(lines: seq<string>, i: nat, j: nat): Option<int>
    requires i < |lines| && RunEndsAt(lines[i], j)
  {
    var min := RunStart(lines[i], j);
    match CheckRun(lines, i, min, j)
    case None => None
    case Some(touches) => Some(if touches then RunValue(lines[i][min..j + 1]) else 0)
  }

  /** The contributions of the runs ending before column `n` of line `i`,
      left to right; `None` once one of them panics. */
  function RowContribs(lines: seq<string>, i: nat, n: nat): Option<seq<int>>
    requires i < |lines| && n <= |lines[i]|
  {
    if n == 0 then Some([])
    else
      match RowContribs(lines, i, n - 1)
      case None => None
      case Some(cs) =>
        if !RunEndsAt(lines[i], n - 1) then Some(cs)
        else
          match RunContribution(lines, i, n - 1)
          case None => None
          case Some(v) => Some(cs + [v])
  }

  /** The contributions of every run of the first `m` lines, row by row. */
  function Contribs(lines: seq<string>, m: nat): Option<seq<int>>
    requires m <= |lines|
  {
    if m == 0 then Some([])
    else
      match Contribs(lines, m - 1)
      case None => None
      case Some(a) =>
        match RowContribs(lines, m - 1, |lines[m - 1]|)
        case None => None
        case Some(b) => Some(a + b)
  }

  /** Once a prefix of a line panics, the whole line does; otherwise the
      contributions of a prefix come first in those of the line. */
  lemma {:induction false} RowContribsPrefix(lines: seq<string>, i: nat, n: nat, m: nat)
    requires i < |lines| && n <= m <= |lines[i]|
    ensures RowContribs(lines, i, n).None? ==> RowContribs(lines, i, m).None?
    ensures RowContribs(lines, i, m).Some? ==>
      exists rest :: RowContribs(lines, i, m).value == RowContribs(lines, i, n).value + rest
    decreases m
  {
    if n < m {
      RowContribsPrefix(lines, i, n, m - 1);
      if RowContribs(lines, i, m).Some? {
        var front := RowContribs(lines, i, n).value;
        var prev := RowContribs(lines, i, m - 1).value;
        var rest :| prev == front + rest;
        if RunEndsAt(lines[i], m - 1) {
          var v := RunContribution(lines, i, m - 1).value;
          assert RowContribs(lines, i, m).value == prev + [v];
          assert prev + [v] == front + (rest + [v]);
        } else {
          assert RowContribs(lines, i, m).value == front + rest;
        }
      }
    } else {
      if RowContribs(lines, i, m).Some? {
        assert RowContribs(lines, i, m).value == RowContribs(lines, i, n).value + [];
      }
    }
  }

  lemma {:induction false} ContribsPrefix(lines: seq<string>, n: nat, m: nat)
    requires n <= m <= |lines|
    ensures Contribs(lines, n).None? ==> Contribs(lines, m).None?
    ensures Contribs(lines, m).Some? ==> exists rest :: Contribs(lines, m).value == Contribs(lines, n).value + rest
    decreases m
  {
    if n < m {
      ContribsPrefix(lines, n, m - 1);
      if Contribs(lines, m).Some? {
        var rest :| Contribs(lines, m - 1).value == Contribs(lines, n).value + rest;
        var b := RowContribs(lines, m - 1, |lines[m - 1]|).value;
        assert Contribs(lines, m).value == Contribs(lines, n).value + (rest + b);
      }
    } else {
      if Contribs(lines, m).Some? {
        assert Contribs(lines, m).value == Contribs(lines, n).value + [];
      }
    }
  }

  /** A run that panics spoils its whole line. */
  lemma RowPanicSpoils(lines: seq<string>, i: nat, n: nat)
    requires i < |lines| && n <= |lines[i]| && RowContribs(lines, i, n).None?
    ensures RowContribs(lines, i, |lines[i]|).None?
  {
    RowContribsPrefix(lines, i, n, |lines[i]|);
  }

  /** Running sums that overflow within a line overflow for the whole line. */
  lemma RowOverflowSpoils(lines: seq<string>, i: nat, n: nat, done: seq<int>, xs: seq<int>)
    requires i < |lines| && n <= |lines[i]| && RowContribs(lines, i, n) == Some(xs)
    requires !RunningSumsFit(done + xs)
    ensures RowContribs(lines, i, |lines[i]|).None? || !RunningSumsFit(done + RowContribs(lines, i, |lines[i]|).value)
  {
    RowContribsPrefix(lines, i, n, |lines[i]|);
    if RowContribs(lines, i, |lines[i]|).Some? {
      var whole := RowContribs(lines, i, |lines[i]|).value;
      var rest :| whole == xs + rest;
      assert done + whole == (done + xs) + rest;
      OverflowSpoils(done + xs, done + whole);
    }
  }

  /** Adding one contribution to sums that fit. */
  lemma AddContribution(done: seq<int>, added: seq<int>, v: int)
    requires RunningSumsFit(done + added)
    ensures RunningSumsFit(done + (added + [v])) <==> FitsI32(Sum(done + added) + v)
    ensures Sum(done + (added + [v])) == Sum(done + added) + v
  {
    RunningSumsSnoc(done + added, v);
    SumAppend(done + added, v);
    assert done + added + [v] == done + (added + [v]);
  }

  /** The loop over the characters of line `i`: `min` follows the start of
      the current run; at a run's last digit the run is checked and, when it
      touches a symbol, its value is added to the `i32` sum. `added` lists
      the line's contributions. */
  method ScanRow(lines: seq<string>, i: nat, sum0: int, ghost done: seq<int>) returns (r: Option<int>, ghost added: seq<int>)
    requires i < |lines| && RunningSumsFit(done) && sum0 == Sum(done)
    ensures r.Some? ==>
      RowContribs(lines, i, |lines[i]|) == Some(added) && RunningSumsFit(done + added) && r.value == Sum(done + added)
    ensures r.None? ==>
      RowContribs(lines, i, |lines[i]|).None? || !RunningSumsFit(done + RowContribs(lines, i, |lines[i]|).value)
  {
    var characters := lines[i];
    var len := |characters|;
    var min := 0;
    var sum := sum0;
    added := [];
    assert done + added == done;
    for j := 0 to len
      invariant RowContribs(lines, i, j) == Some(added)
      invariant RunningSumsFit(done + added) && sum == Sum(done + added)
      invariant j > 0 && IsDigit(characters[j - 1]) ==> min == RunStart(characters, j - 1)
    {
      if IsDigit(characters[j]) {
        if j == 0 || !IsDigit(characters[j - 1]) {
          min := j;
        }
        var max := j;
        if j == len - 1 || !IsDigit(characters[j + 1]) {
          var valid := RunIsValid(lines, i, min, max);
          if valid.None? {
            RowPanicSpoils(lines, i, j + 1);
            return None, added;
          }
          var v := 0;
          if valid.value {
            v := ParseNumberFromCharArray(characters[min..max + 1]);
          }
          assert RowContribs(lines, i, j + 1) == Some(added + [v]);
          AddContribution(done, added, v);
          if !FitsI32(sum + v) {
            RowOverflowSpoils(lines, i, j + 1, done, added + [v]);
            return None, added;
          }
          sum := sum + v;
          added := added + [v];
        }
      }
    }
    return Some(sum), added;
  }

  /** `compute_sum`: every line of the schematic (Rust's `lines()`) in turn;
      `None` when a test panics or the `i32` sum overflows. Otherwise the
      sum of all contributions. */
  method ComputeSum(schematic: string) returns (r: Option<int>)
    ensures r.Some? <==>
      Contribs(Lines(schematic), |Lines(schematic)|).Some? &&
      RunningSumsFit(Contribs(Lines(schematic), |Lines(schematic)|).value)
    ensures r.Some? ==> r.value == Sum(Contribs(Lines(schematic), |Lines(schematic)|).value)
  {
    var lines := Lines(schematic);
    var sum := 0;
    ghost var done: seq<int> := [];
    assert RunningSumsFit(done) by {
      assert done[..0] == [];
    }
    for i := 0 to |lines|
      invariant Contribs(lines, i) == Some(done)
      invariant RunningSumsFit(done) && sum == Sum(done)
    {
      var row;
      ghost var added;
      row, added := ScanRow(lines, i, sum, done);
      if row.None? {
        ContribsPrefix(lines, i + 1, |lines|);
        if Contribs(lines, |lines|).Some? {
          ghost var b := RowContribs(lines, i, |lines[i]|).value;
          assert Contribs(lines, i + 1) == Some(done + b);
          ghost var rest :| Contribs(lines, |lines|).value == done + b + rest;
          OverflowSpoils(done + b, Contribs(lines, |lines|).value);
        }
        return None;
      }
      sum := row.value;
      done := done + added;
    }
    return Some(sum);
  }
}
