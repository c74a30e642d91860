/** Day 3: an engine schematic is a grid of lines; a part number is a
    maximal run of decimal digits within one line. Part 1 (day3p1.rs)
    finds the runs column by column through `min` and `max`, part 2
    (day3p2.rs) through `start_index` and `length`; both handle a run when
    they reach its last digit or the first column after it. */
module Day3Schematic {
  import opened Text

  /** Columns `min ..= max` of the line are digits, and the run cannot be
      extended to either side. */
  predicate IsRun(line: string, min: nat, max: nat)
  {
    min <= max < |line| &&
    (forall k :: min <= k <= max ==> IsDigit(line[k])) &&
    (min == 0 || !IsDigit(line[min - 1])) &&
    (max == |line| - 1 || !IsDigit(line[max + 1]))
  }

  /** Column `j` is the last digit of a run. */
  predicate RunEndsAt(line: string, j: nat)
  {
    j < |line| && IsDigit(line[j]) && (j == |line| - 1 || !IsDigit(line[j + 1]))
  }

  /** The first column of the run of digits through column `j`. */
  function RunStart(line: string, j: nat): (min: nat)
    requires j < |line| && IsDigit(line[j])
    ensures min <= j && (forall k :: min <= k <= j ==> IsDigit(line[k]))
    ensures min == 0 || !IsDigit(line[min - 1])
  {
    if j == 0 || !IsDigit(line[j - 1]) then j else RunStart(line, j - 1)
  }

  /** Digits back to a non-digit (or the start of the line) are the run's
      start, whatever column of the run it is asked from. */
  lemma {:induction false} RunStartUnique(line: string, min: nat, j: nat)
    requires min <= j < |line| && forall k :: min <= k <= j ==> IsDigit(line[k])
    requires min == 0 || !IsDigit(line[min - 1])
    ensures RunStart(line, j) == min
    decreases j
  {
    if j > min {
      RunStartUnique(line, min, j - 1);
    }
  }

  /** Every run is handled exactly once, at its last column: a column ends
      a run exactly when the run through it is maximal, and every maximal
      run ends at its last column with its first column as start. */
  lemma RunsAtEnds(line: string, min: nat, max: nat)
    ensures max < |line| && IsDigit(line[max]) ==> (RunEndsAt(line, max) <==> IsRun(line, RunStart(line, max), max))
    ensures IsRun(line, min, max) ==> RunEndsAt(line, max) && RunStart(line, max) == min
  {
    if IsRun(line, min, max) {
      RunStartUnique(line, min, max);
    }
  }
}
