# Advent of Code 2023 solvers, modelled in Dafny

This project models the solvers for days 1 to 9 of Advent of Code 2023.
Each solver is a small, sequential Rust program that reads a puzzle input
as text and computes one integer. The model keeps the programs'
structure: one Dafny module per source file, plus shared modules where
both parts of a day share code. Loops that update variables are methods
with loop invariants. Each method is proved against a specification
function, and the puzzle's properties are proved as lemmas about those
functions.

- **Day 1 (calibration).** `join_first_last` reads the first and the last
  digit of a line as a two-digit number, or 0 when the line has no digit.
  `traverse_lines` sums the lines in an `i32`. Part 2 first rewrites the
  words `one` to `nine` to first letter, digit and last letter.
- **Day 2 (cube game).** Takes the per-colour maxima over all rolls of a
  game. Part 1 checks them against the bag (12 red, 13 green, 14 blue)
  and sums the ids of possible games. Part 2 multiplies the maxima.
- **Day 3 (engine schematic).** Part 1 scans each line for maximal digit
  runs and adds those next to a symbol. Part 2 lists the runs as parts,
  then adds the product of the two parts for every `*` touching exactly
  two of them.
- **Day 4 (scratch cards).** Reads a card as two sets of numbers. Part 1
  scores 2^(k-1) for k matches. Part 2 cascades copies through an
  in-place array of counts.
- **Day 5 (almanac).** Reads the seeds and seven range maps, sends every
  seed through the maps and keeps the smallest location.
- **Day 6 (boat races).** The distance for each hold time is d·(t−d);
  only distances beating the record are kept. Part 1 multiplies the
  counts over the races. Part 2 first joins the digit groups of each line
  into one number.
- **Day 7 (camel cards with jokers).** Counts the cards of a hand, gives
  the jokers to a largest group, classifies the hand, orders hands by
  kind and then card by card, and sums bid × rank over the sorted hands.
- **Day 8 (desert map).** Reads a `node = (left, right)` map and walks it
  with the direction string, replayed cyclically. Part 1 walks from
  `AAA` to `ZZZ`. Part 2 walks from every node ending in `A` to a node
  ending in `Z` and combines the step counts with the least common
  multiple.
- **Day 9 (oasis).** Extrapolates the next value of a history from its
  rows of differences.

Shared modules:
- `Text` models the Rust `str` operations the solvers use, restricted to
  ASCII. These are `split`, `split_whitespace`, `lines`, `trim`,
  `replace`, `trim_start_matches`/`trim_end_matches`, and integer
  `parse`, which fails on overflow. `Text` also proves their round trips
  (`Join`/`Split`, `Unwords`/`SplitWhitespace`, `ToDecimal`/`ParseUnsigned`).
- `Common` holds `Option`, `Result`, `Sum` and `Product`.
- `Arithmetic` defines gcd and lcm and proves their divisibility facts.

The panics of the source are explicit error results in the model:
`unwrap` on `None`, an index out of bounds, `assert!`, `unreachable!`,
and the debug-build overflow of the fixed-width arithmetic that the model
writes out against `I32_MAX`, `U32_LIMIT` and `U64_LIMIT` (the running
sums, products and `pow`, and the step counters). A few overflows are not
modelled: the copy counts of day 4 part 2, the `i32` arithmetic of day 9,
the rank cast of day 7 and `usize`; "## Left out" lists each.

## Model

| member | source | states |
|---|---|---|
| Day1Part1.Digits | src/bin/day1.rs:19 | the characters the filter keeps are all decimal digits, and there are at most as many as in the line |
| Day1Part1.DigitsEnds | src/bin/day1.rs:19-23 | a line has no digits exactly when no character is a digit; the first and last kept digits are the line's first and last digit characters |
| Day1Part1.TwoDigitsParse | src/bin/day1.rs:20-26 | formatting two digits side by side and parsing the text as `i32` gives 10 × first + second |
| Day1Part1.JoinFirstLast | src/bin/day1.rs:18-29 | the value of every line lies in 0..=99 |
| Day1Part1.JoinFirstLastSpec | src/bin/day1.rs:19-26 | with first digit at i and last digit at j, the value is 10 × line[i] + line[j] |
| Day1Part1.NoDigitsIsZero | src/bin/day1.rs:22-23 | a line without digits is worth 0 through the `'0'` fallbacks |
| Day1Part1.SingleDigit | src/bin/day1.rs:54-55 | a line with a single digit d is worth 11·d |
| Day1Part1.TraverseLines | src/bin/day1.rs:10-16 | returns the sum of the line values exactly when no running `i32` sum overflows, and the overflow error otherwise |
| Day1Part1.TraverseLinesFits | src/bin/day1.rs:10-16 | the running sums never overflow while lines × 99 fits an `i32` |
| Day1Part1.ExampleLine | src/bin/day1.rs:43-56 | the example lines are worth 12, 38, 15 and 77, and the trailing empty line 0 |
| Day1Part1.ExampleTotal | src/bin/day1.rs:58-62 | the example sums to 142 |
| Day1Part2.MarksShape | src/bin/day1p2.rs:21-30 | each replacement keeps the word's first and last letter around the digit of the word's value |
| Day1Part2.CookPlain | src/bin/day1p2.rs:21-39 | a line without digit words is not rewritten and is worth what part 1 gives |
| Day1Part2.CookUpToPlain | src/bin/day1p2.rs:21-30 | no step of the replacement chain changes a line without digit words |
| Day1Part2.NoLettersNoWord | src/bin/day1p2.rs:21-30 | a line without lower-case letters contains no digit word |
| Day1Part2.ReplaceKeepsDigits | src/bin/day1p2.rs:21-30 | one `replace` of a digit-free word keeps every literal digit of the line |
| Day1Part2.CookKeepsDigits | src/bin/day1p2.rs:21-32 | the whole replacement chain keeps every literal digit of the line |
| Day1Part2.JoinFirstLast | src/bin/day1p2.rs:18-42 | the value of every line lies in 0..=99 |
| Day1Part2.CookedValue | src/bin/day1p2.rs:32-39 | the value is 10 × first digit + last digit of the rewritten line |
| Day1Part2.CookAll | src/bin/day1p2.rs:21-30 | every line is rewritten by the replacement chain, and nothing else changes |
| Day1Part2.TraverseLines | src/bin/day1p2.rs:10-16 | each line is worth `join_first_last` of the line; returns the sum of those values exactly when no running `i32` sum overflows |
| Day1Part2.CookExample0 | src/bin/day1p2.rs:21-30 | `two1nine` is rewritten to `t2o1n9e` |
| Day1Part2.Example0Value | src/bin/day1p2.rs:63-64 | `two1nine` is worth 29 |
| Day1Part2.CookExample1 | src/bin/day1p2.rs:19-30 | `eightwothree` is rewritten to `e8t2ot3e`: both overlapping words survive |
| Day1Part2.Example1Value | src/bin/day1p2.rs:66-67 | `eightwothree` is worth 83 |
| Day1Part2.CookExample2 | src/bin/day1p2.rs:21-30 | the rewriting of `abcone2threexyz` |
| Day1Part2.Example2Value | src/bin/day1p2.rs:69-70 | `abcone2threexyz` is worth 13 |
| Day1Part2.CookExample3 | src/bin/day1p2.rs:21-30 | the rewriting of `xtwone3four` |
| Day1Part2.Example3Value | src/bin/day1p2.rs:72-73 | `xtwone3four` is worth 24 |
| Day1Part2.CookExample4 | src/bin/day1p2.rs:21-30 | the rewriting of `4nineeightseven2` |
| Day1Part2.Example4Value | src/bin/day1p2.rs:75-76 | `4nineeightseven2` is worth 42 |
| Day1Part2.CookExample5 | src/bin/day1p2.rs:21-30 | the rewriting of `zoneight234` |
| Day1Part2.Example5Value | src/bin/day1p2.rs:78-79 | `zoneight234` is worth 14 |
| Day1Part2.CookExample6 | src/bin/day1p2.rs:21-30 | the rewriting of `7pqrstsixteen` |
| Day1Part2.Example6Value | src/bin/day1p2.rs:81-82 | `7pqrstsixteen` is worth 76 |
| Day2Cubes.ParseRoll | src/bin/day2p1.rs:72-84 | a count and a colour written as two words are read back as that roll |
| Day2Cubes.ParseRollFails | src/bin/day2p1.rs:72-84 | a roll with fewer than two words, or whose first word is not an `i32`, is not read |
| Day2Cubes.ParseNumberAndColor | src/bin/day2p1.rs:72-84 | a roll that is read has an `i32` count and a non-empty colour word without whitespace |
| Day2Cubes.RollsLabelled | src/bin/day2p1.rs:32-35 | text without `;` or `,` put in front of a game joins its first roll; the other rolls are unchanged |
| Day2Cubes.MaximaSpec | src/bin/day2p1.rs:28-59 | each colour's maximum is non-negative, at least every count of that colour, and either 0 or one of those counts |
| Day2Cubes.MaximaPermutation | src/bin/day2p1.rs:32-59 | the maxima do not depend on the order of the rolls |
| Day2Cubes.MaxUnique | src/bin/day2p1.rs:32-59 | each colour's maximum is the same for any ordering of the rolls |
| Day2Cubes.MaximaAppend | src/bin/day2p1.rs:35-58 | one more roll updates the maxima as the loop body does: a larger count of a known colour replaces it, anything else is skipped |
| Day2Cubes.ComputeMaxima | src/bin/day2p2.rs:17-48 | the nested loops compute the maxima over every roll of every draw |
| Day2Cubes.ScanDraw | src/bin/day2p2.rs:23-47 | the inner loop extends the maxima of the rolls seen so far by one draw's rolls |
| Day2Cubes.ReadGameText | src/bin/day2p1.rs:32-35 | a game written as draws of rolls splits back into exactly those rolls |
| Day2Cubes.ExampleMaxima | src/bin/day2p1.rs:105-111 | the maxima of the five example games |
| Day2Part1.IsLineValid | src/bin/day2p1.rs:27-70 | true exactly when the maxima are within 12 red, 13 green and 14 blue |
| Day2Part1.MaximaWithinBag | src/bin/day2p1.rs:61-69 | the maxima are within the bag exactly when every roll is |
| Day2Part1.PossibleOrderFree | src/bin/day2p1.rs:32-59 | whether every roll fits the bag does not depend on the order of the rolls |
| Day2Part1.GameIdRoundTrip | src/bin/day2p1.rs:86-98 | `Game n` reads back as the id n |
| Day2Part1.ParseGameId | src/bin/day2p1.rs:86-98 | an id that is read fits an `i32`; a line with fewer than two words has none |
| Day2Part1.SumOfPossibleGames | src/bin/day2p1.rs:11-22 | the total is the sum of the ids of the lines with a `:` whose game is possible, exactly when no running `i32` sum overflows |
| Day2Part1.SumLines | src/bin/day2p1.rs:13-22 | the closure over the lines accumulates the sum of their values |
| Day2Part1.LineValue | src/bin/day2p1.rs:14-21 | one line adds its id when it has a `:`, the game is possible and the id parses, and nothing otherwise |
| Day2Part1.ExamplePossible | src/bin/day2p1.rs:128-137 | games 1, 2 and 5 of the example are possible; games 3 and 4 are not |
| Day2Part1.GameLabelSkipsRoll | src/bin/day2p1.rs:72-84 | a roll with `Game n:` in front is not read: its first word is not a number |
| Day2Part1.LabelledParse | src/bin/day2p1.rs:32-36 | on a whole `Game n: …` line the first roll is dropped and every other roll is read as written |
| Day2Part1.LabelledGame | src/bin/day2p1.rs:27-70 | a whole game line is possible exactly when every roll but the first fits the bag; when the first roll fits, it agrees with the text after `:` |
| Day2Part1.ExampleTestLines | src/bin/day2p1.rs:128-137 | on the whole example lines, as the test passes them, games 1, 2 and 5 are possible and games 3 and 4 are not |
| Day2Part2.Power | src/bin/day2p2.rs:50 | the product of the three maxima, or the `i32` overflow error exactly when a partial product does not fit |
| Day2Part2.ComputePower | src/bin/day2p2.rs:16-51 | the power of the line's maxima |
| Day2Part2.MaximaSmallestBag | src/bin/day2p2.rs:16-50 | the maxima form the smallest bag admitting every roll, so every admitting bag has at least the same power |
| Day2Part2.AbsentColour | src/bin/day2p2.rs:17-19 | a colour that never appears leaves its maximum at 0 and the power at 0 |
| Day2Part2.ExamplePowers | src/bin/day2p2.rs:95-104 | the example powers are 48, 12, 1560, 630 and 36 |
| Day3Schematic.RunStart | src/bin/day3p1.rs:23-26 | the first column of the digit run through column j: digits up to j, and no digit before it |
| Day3Schematic.RunStartUnique | src/bin/day3p1.rs:24-26 | any column that starts a run through j is the run's start |
| Day3Schematic.RunsAtEnds | src/bin/day3p1.rs:22-30 | a run is handled at its last digit, exactly once, with min its first column and max its last |
| Day3Part1.IsAdjacentSymbol | src/bin/day3p1.rs:56-67 | scans columns min−1..=max+1 for a punctuation character other than `.` |
| Day3Part1.ScanFromSpec | src/bin/day3p1.rs:56-67 | with the row long enough, the scan finds a symbol exactly when one lies in the window strictly between column 0 and the run line's length; it panics only on a column past the row's end |
| Day3Part1.ScanSkipsColumnZero | src/bin/day3p1.rs:58 | column 0 is never looked at: changing it changes nothing |
| Day3Part1.CheckRunSpec | src/bin/day3p1.rs:31-42 | a run counts exactly when a symbol sits within one column of it on its own line, the line above or the line below; a panic needs a nearby line too short for a looked-at column |
| Day3Part1.RunIsValid | src/bin/day3p1.rs:31-42 | checks the run's own line, then the line above, then the line below, while no symbol is found |
| Day3Part1.ParseNumberFromCharArray | src/bin/day3p1.rs:69-80 | the characters parsed as an `i32`, or 0 when they do not parse |
| Day3Part1.RunValueSpec | src/bin/day3p1.rs:69-80 | a digit run is worth its decimal value, or 0 when that exceeds `i32::MAX` |
| Day3Part1.RowContribsPrefix | src/bin/day3p1.rs:22-50 | a line's contributions grow left to right, and a panic stays a panic |
| Day3Part1.ContribsPrefix | src/bin/day3p1.rs:14-51 | the contributions of the lines grow line by line, and a panic stays a panic |
| Day3Part1.ScanRow | src/bin/day3p1.rs:16-50 | one line adds its runs' contributions to the sum, or reports the panic or the overflow |
| Day3Part1.ComputeSum | src/bin/day3p1.rs:9-54 | the sum of every run's contribution, exactly when no test panics and no running `i32` sum overflows |
| Day3Part2.PartAt | src/bin/day3p2.rs:25-55 | the part recorded for the run ending at column j: its start, its row, its length and its digits |
| Day3Part2.ReadRow | src/bin/day3p2.rs:21-55 | a line's loop records one part per maximal digit run, including a run that ends the line |
| Day3Part2.ReadData | src/bin/day3p2.rs:17-59 | the parts of all lines, line by line |
| Day3Part2.RowPartsSound | src/bin/day3p2.rs:25-55 | every recorded part is a maximal run of its row with its digits as value, and parts come left to right with a gap between them |
| Day3Part2.RowPartsComplete | src/bin/day3p2.rs:25-55 | every maximal run of a line is recorded |
| Day3Part2.PartsRowMajor | src/bin/day3p2.rs:20-34 | the parts come out in row order |
| Day3Part2.TouchesSpec | src/bin/day3p2.rs:69-80 | away from row and column 0, a part is adjacent exactly when its row is within one of the star's, and its start is within one column of the star or its start + length is the star's column or the next one |
| Day3Part2.TouchesUnderflow | src/bin/day3p2.rs:69-74 | a star in row 0 panics for any part at most one row below it; one in column 0 panics for a nearby part that does not start in column 0 |
| Day3Part2.TouchesShortParts | src/bin/day3p2.rs:73-78 | for parts of one to three digits, adjacency means some digit is within one row and one column of the star |
| Day3Part2.LongPartMissed | src/bin/day3p2.rs:73-78 | a five-digit part in row 0, columns 0 to 4, lies right above a star at row 1, column 2, yet is not adjacent under the source's test |
| Day3Part2.NeighboursSpec | src/bin/day3p2.rs:67-81 | the collected parts are exactly the adjacent ones, and collecting panics exactly when one test does |
| Day3Part2.AdjacentNumbers | src/bin/day3p2.rs:67-81 | the loop collects the adjacent parts in list order |
| Day3Part2.StarValueSpec | src/bin/day3p2.rs:83-87 | a star adds the product of its two parts' values when exactly two parts are adjacent, and nothing otherwise |
| Day3Part2.StarAt | src/bin/day3p2.rs:66-88 | what one star adds, or its panic |
| Day3Part2.RatiosPrefix | src/bin/day3p2.rs:64-90 | the gear ratios grow line by line, and a panic stays a panic |
| Day3Part2.ScanStars | src/bin/day3p2.rs:65-89 | one line adds its stars' ratios to the sum, or reports the panic or the overflow |
| Day3Part2.FindGearRatio | src/bin/day3p2.rs:61-93 | the sum of every star's ratio, exactly when no test panics and no running `i32` sum overflows |
| Day4Cards.CollectNumbers | src/bin/day4p1.rs:73-85 | the set of the tokens that parse as `u32`; other tokens are skipped and repeats count once |
| Day4Cards.NumberSetAppend | src/bin/day4p1.rs:74-78 | one more token adds its number when it parses and nothing otherwise |
| Day4Cards.ParseLine | src/bin/day4p1.rs:54-88 | reads the card a line describes, or the panic |
| Day4Cards.CardOfErrors | src/bin/day4p1.rs:56-71 | the line fails exactly when it does not have one `:`, and then exactly when its values do not have one vertical bar |
| Day4Cards.Matches | src/bin/day4p2.rs:47-50 | the number of winning numbers on the card is at most the size of either set |
| Day4Cards.ExampleMatches | src/bin/day4p1.rs:95-102 | the example cards have 4, 2, 2, 1, 0 and 0 matches |
| Day4Part1.PointsFor | src/bin/day4p1.rs:35-40 | a score that is defined fits a `u32` |
| Day4Part1.CalculatePoints | src/bin/day4p1.rs:32-41 | a card's score, when defined, fits a `u32` |
| Day4Part1.PointsOverflow | src/bin/day4p1.rs:35-40 | `pow` overflows exactly when the truncated match count is 33 or more; k matches for 1 ≤ k ≤ 32 score 2^(k−1) |
| Day4Part1.PointsZeroIff | src/bin/day4p1.rs:32-41 | a card whose sets share nothing scores 0; below 2^32 matches, a score of 0 means the sets share nothing |
| Day4Part1.PointsDouble | src/bin/day4p1.rs:32-41 | each further match doubles the score up to 32 matches; the 33rd match overflows |
| Day4Part1.PointsMonotone | src/bin/day4p1.rs:34-40 | below 2^32 matches, more matches never score less, and once the score overflows it stays overflowed |
| Day4Part1.ExamplePoints | src/bin/day4p1.rs:104-125 | the example cards score 8, 2, 2, 1, 0 and 0 |
| Day4Part2.Step | src/bin/day4p2.rs:20-27 | processing card i adds its copies to each of the next k cards and changes nothing else |
| Day4Part2.CopiesPositive | src/bin/day4p2.rs:18 | every card keeps at least its original copy |
| Day4Part2.CopiesSettled | src/bin/day4p2.rs:20-27 | a card's count no longer changes once the cards before it and it have been processed |
| Day4Part2.TotalAtLeastCards | src/bin/day4p2.rs:29 | the total is at least the number of cards |
| Day4Part2.WinCopies | src/bin/day4p2.rs:22-26 | the inner loops update the counts in place by one step, or fail exactly when a won card lies past the last card |
| Day4Part2.CountCards | src/bin/day4p2.rs:17-30 | the sum of the final copy counts, or the index of the first card that wins past the last card |
| Day4Part2.SumCounts | src/bin/day4p2.rs:29 | the sum of the counts array |
| Day4Part2.ScanCards | src/bin/day4p2.rs:13-15 | one card per line, or the first line that fails to parse |
| Day4Part2.ExampleTotal | src/bin/day4p2.rs:113-118 | the example ends with 30 cards |
| Day4Part2.ExampleCopies | src/bin/day4p2.rs:17-30 | the example's copy counts are 1, 2, 4, 8, 14 and 1 |
| Day5.TranslateSpec | src/bin/day5p1.rs:101-111 | the first entry holding the value translates it; a value no entry holds is unchanged, so an empty map is the identity; entries that fit a `u64` never overflow |
| Day5.Translate | src/bin/day5p1.rs:101-111 | the only failure is the `u64` overflow of an entry's source + range |
| Day5.GrowSeed | src/bin/day5p1.rs:101-111 | the loop with `break` computes the translation, or the `u64` overflow |
| Day5.ParseNumbersSpec | src/bin/day5p1.rs:46-49 | the numbers are read exactly when every token is a `u64`, and then in order |
| Day5.ClassOfLine | src/bin/day5p1.rs:41-55 | a line after a header is blank, an entry read as destination, source and range in that order, or a faulty line |
| Day5.ReadEntriesOk | src/bin/day5p1.rs:41-58 | a map is the lines up to the first blank line, read exactly when each is an entry, and reading resumes after the blank line |
| Day5.ReadEntriesErr | src/bin/day5p1.rs:46-49 | reading a map fails at its first line that is not an entry |
| Day5.ReadMap | src/bin/day5p1.rs:34-59 | skips the header, then reads the entries up to a blank line |
| Day5.ReadSeedsSpec | src/bin/day5p1.rs:16-32 | the seeds are read exactly when every word after the label on the first line is a `u64`, and are those words' values in order; reading resumes two lines down |
| Day5.ReadAlmanac | src/bin/day5p1.rs:66-80 | the seeds, then the seven maps, each read where the last stopped |
| Day5.ReadMapsFrom | src/bin/day5p1.rs:74-80 | seven maps read one after another |
| Day5.MinLocationSpec | src/bin/day5p1.rs:82-98 | the minimum is at most every seed's location; with no seeds it is `u64::MAX`; with seeds it is one of their locations |
| Day5.LocationBound | src/bin/day5p1.rs:84-91 | a location fits a `u64` |
| Day5.MinimumLocation | src/bin/day5p1.rs:82-98 | the loop keeps the smallest location seen, starting from `u64::MAX` |
| Day5.FindMinimumLocation | src/bin/day5p1.rs:64-99 | reads the almanac and returns the minimum location, or the first error |
| Day5.ExampleMinimum | src/bin/day5p1.rs:118-157 | the example seeds reach locations 82, 43, 86 and 35, and the minimum is 35 |
| Day6Races.AfterLabel | src/bin/day6p1.rs:39-41 | dropping the label leaves one word fewer than the line has |
| Day6Races.LabelledLine | src/bin/day6p1.rs:39-49 | a label followed by number words reads back as those words |
| Day6Races.Distances | src/bin/day6p1.rs:23-27 | one distance for every hold time 0..=t |
| Day6Races.WinningDistances | src/bin/day6p1.rs:21-32 | the distances beating the record, in increasing hold time, or the overflow panic of a product |
| Day6Races.AboveMembers | src/bin/day6p1.rs:28-31 | the filter keeps exactly the distances above the record |
| Day6Races.DistancesSymmetric | src/bin/day6p1.rs:23-27 | hold times d and t − d give the same distance |
| Day6Races.WinningPalindrome | src/bin/day6p2.rs:21-32 | the kept distances read the same backwards |
| Day6Races.WinningBound | src/bin/day6p2.rs:21-32 | at most t − 1 distances are kept, fewer than the t + 1 computed |
| Day6Races.NoOverflowBelowSquare | src/bin/day6p1.rs:25 | no product overflows when t² fits the width |
| Day6Races.ExampleDistances | src/bin/day6p1.rs:93-101 | for the race 7/9 the distances are 0, 6, 10, 12, 12, 10, 6, 0, and 10, 12, 12, 10 are kept |
| Day6Part1.NumbersSpec | src/bin/day6p1.rs:39-49 | a line's numbers are read exactly when every word after the label is a `u32`, then in order |
| Day6Part1.ReadRaceDataSpec | src/bin/day6p1.rs:35-61 | fails exactly on a line count other than two, a bad number or a count mismatch; otherwise record i pairs the i-th time with the i-th distance |
| Day6Part1.ReadRaceData | src/bin/day6p1.rs:35-61 | every record read has a `u32` time and distance |
| Day6Part1.ReadRaceTable | src/bin/day6p1.rs:35-61 | a table of times and distances written as two labelled lines is read back as its records |
| Day6Part1.WinCount | src/bin/day6p1.rs:66 | the count of kept distances, truncated to 32 bits |
| Day6Part1.WinCountExact | src/bin/day6p1.rs:66 | the truncation is exact for a `u32` time |
| Day6Part1.MarginIsProduct | src/bin/day6p1.rs:63-69 | the margin is the product of the per-race counts, and it is defined when the product of positive counts fits a `u32` |
| Day6Part1.MarginErrors | src/bin/day6p1.rs:63-69 | an empty record list is the `unwrap` failure; every other error is an overflow, and a race whose distances overflow makes the margin fail |
| Day6Part1.ComputeErrorMargin | src/bin/day6p1.rs:63-69 | a margin that is defined fits a `u32` |
| Day6Part1.ExampleMargin | src/bin/day6p1.rs:103-107 | the example races give 4, 8 and 9 ways, and a margin of 288 |
| Day6Part2.ConcatDigits | src/bin/day6p2.rs:39-43 | joining digit groups joins their decimal values |
| Day6Part2.ReadRaceDataSpec | src/bin/day6p2.rs:35-46 | fails exactly on a line count other than two or a joined number that is not a `u64`; otherwise the record holds both joined numbers |
| Day6Part2.ReadRaceData | src/bin/day6p2.rs:35-46 | a record read has a `u64` time and distance |
| Day6Part2.MarginIsCount | src/bin/day6p2.rs:48-50 | the margin is the number of kept distances, defined exactly when no product overflows |
| Day6Part2.ComputeErrorMargin | src/bin/day6p2.rs:48-50 | a margin that is defined fits a `u64` |
| Day6Part2.ExampleRaceData | src/bin/day6p2.rs:62-67 | the example lines are read as time 71530 and distance 940200 |
| Day7.RankInjective | src/bin/day7p2.rs:12-21 | the kinds are ordered by declaration, one rank each |
| Day7.NonJokers | src/bin/day7p2.rs:86-93 | the count table holds no joker, and its counts plus the jokers add up to the number of cards |
| Day7.CardCount | src/bin/day7p2.rs:82-106 | counts the non-jokers and adds the jokers to a largest group; five jokers count as five `J`s; the counts add up to the number of cards |
| Day7.JokersJoin | src/bin/day7p2.rs:100-102 | jokers added to a largest group make the counts add up to the hand size |
| Day7.KindIgnoresChoice | src/bin/day7p2.rs:100-102 | whichever largest group receives the jokers, the kind is the same |
| Day7.CategorizeByProfile | src/bin/day7p2.rs:62-80 | the kind depends only on how many cards occur 2, 3, 4 and 5 times |
| Day7.Categorize | src/bin/day7p2.rs:62-80 | a count of 5 is five of a kind; a full house has a group of 3 and one of 2; high card exactly when no card occurs 2 to 5 times |
| Day7.CompareNat | src/bin/day7p2.rs:43 | the comparison of two values |
| Day7.CardValues | src/bin/day7p2.rs:121-131 | every card has a value of at most 14, the joker is the weakest card, and no two cards share a value |
| Day7.CardValue | src/bin/day7p2.rs:121-131 | a value is at most 14; every card of the game has one; 0 exactly for `J` and `0` |
| Day7.Cmp | src/bin/day7p2.rs:30-46 | identical cards are equal; otherwise kinds decide, then the first differing card; a card that is not a card panics |
| Day7.CompareCardsIsLex | src/bin/day7p2.rs:37-44 | on different hands of game cards, the card loop is the lexicographic order of the card values, and it never ends equal |
| Day7.CompareHandsIsLex | src/bin/day7p2.rs:30-46 | on valid hands, the comparison is the lexicographic order of kind rank, then card values |
| Day7.CompareTotalOrder | src/bin/day7p2.rs:30-46 | on valid hands the comparison is defined, equal exactly for identical cards, antisymmetric and transitive |
| Day7.InsertSorted | src/bin/day7p2.rs:134 | inserting a hand into a sorted list keeps it sorted and adds exactly that hand |
| Day7.SortHandsSorted | src/bin/day7p2.rs:134 | the sort returns a sorted permutation of the hands |
| Day7.InsertStable | src/bin/day7p2.rs:134 | an inserted hand goes after every hand holding the same cards, and their order is kept |
| Day7.SortStable | src/bin/day7p2.rs:134 | the sort is stable: hands holding the same cards, which compare equal, keep their input order |
| Day7.WinningsPrefix | src/bin/day7p2.rs:136-140 | a prefix of the ranked hands wins no more than all of them |
| Day7.GetWinnings | src/bin/day7p2.rs:133-143 | the sum of bid × rank over the sorted hands, or the `u32` overflow |
| Day7.ParseHandLine | src/bin/day7p2.rs:113-115 | the cards are one word and the bid a `u32` |
| Day7.ParseHandLineFormat | src/bin/day7p2.rs:113-115 | a line with cards and a bid reads back as them |
| Day7.ReadHands | src/bin/day7p2.rs:109-119 | one hand per line, with the kind of its cards, or the first line that fails |
| Day7.FourOfAKindCounts | src/bin/day7p2.rs:67-68 | a group of four and no larger group is four of a kind |
| Day7.OnePairCounts | src/bin/day7p2.rs:75-76 | one pair and nothing larger is one pair |
| Day7.TwoPairCounts | src/bin/day7p2.rs:73-74 | two pairs and nothing larger is two pair |
| Day7.NoJokerKindExample | src/bin/day7p2.rs:163-165 | `32T3K` is one pair |
| Day7.JokerKindExample | src/bin/day7p2.rs:100-102 | `T55J5` is four of a kind |
| Day7.TwoPairKindExample | src/bin/day7p2.rs:171-173 | `KK677` is two pair |
| Day7.TwoJokersKindExample | src/bin/day7p2.rs:100-102 | `KTJJT` is four of a kind |
| Day7.ThreeQueensKindExample | src/bin/day7p2.rs:100-102 | `QQQJA` is four of a kind |
| Day7.ExampleHandsValid | src/bin/day7p2.rs:150-156 | the example hands are hands of the game with their computed kinds |
| Day7.ExampleComparisons | src/bin/day7p2.rs:185-195 | how the example hands compare pairwise |
| Day7.ExampleSorted | src/bin/day7p2.rs:185-195 | sorted, the example bids come in the order 765, 28, 684, 483, 220 |
| Day7.ExampleWinnings | src/bin/day7p2.rs:197-202 | the example winnings are 5905 |
| Day8Graph.ParseFormat | src/bin/day8p1.rs:28-32 | a declaration `K = (L, R)` written with labels is read back as K, L and R |
| Day8Graph.ParseAllLines | src/bin/day8p1.rs:27-41 | the declarations are read exactly when every line is one, and then in order |
| Day8Graph.ParseFormatAll | src/bin/day8p1.rs:27-41 | written declarations are all read back |
| Day8Graph.GraphOfKeys | src/bin/day8p1.rs:26-41 | the graph's keys are exactly the declared names |
| Day8Graph.GraphOfLastWins | src/bin/day8p1.rs:34-40 | the last declaration of a name gives its destinations |
| Day8Graph.GraphOfSnoc | src/bin/day8p1.rs:34-40 | each line inserts or replaces its key's entry |
| Day8Graph.BuildGraph | src/bin/day8p1.rs:26-41 | the loop builds the map of the declarations, or names the first malformed line |
| Day8Graph.DirectionPeriodic | src/bin/day8p1.rs:53-62 | the direction string is replayed with its length as period |
| Day8Graph.Advance | src/bin/day8p1.rs:52-58 | `R` moves to the right successor and `L` to the left one; a missing node or any other symbol is an error |
| Day8Graph.BrokenStaysBroken | src/bin/day8p1.rs:47-63 | a walk that has failed stays failed with the same error |
| Day8Graph.WalkOutcomeUnique | src/bin/day8p1.rs:47-65 | the walk's outcome is determined by the graph, the directions and the start |
| Day8Graph.StartOnTarget | src/bin/day8p2.rs:58-60 | a start that is already a target needs no moves |
| Day8Graph.StartOffTarget | src/bin/day8p2.rs:57-71 | a start that is not a target needs at least one move |
| Day8Graph.CountSteps | src/bin/day8p1.rs:43-65 | the first step count at which the walk stands on a target, with the direction index equal to steps mod length; or the first failure; or the overflow of the step counter |
| Day8Part1.FollowInstructions | src/bin/day8p1.rs:16-66 | the first step at which the walk from `AAA` reaches `ZZZ`, or the first error |
| Day8Graph.FirstMalformedUnique | src/bin/day8p1.rs:27-41 | the first malformed declaration line is a single line |
| Day8Part1.AnswerUnique | src/bin/day8p1.rs:16-66 | the result for an input is unique: the answer, or the one error it must be |
| Day8Part1.LinearMapExample | src/bin/day8p1.rs:73-97 | `RL` on the linear map reaches `ZZZ` in 2 steps |
| Day8Part1.RepeatingMapExample | src/bin/day8p1.rs:85-103 | `LLR` on the repeating map reaches `ZZZ` in 6 steps, replaying the directions |
| Day8Part1.LinearMapParses | src/bin/day8p1.rs:73-83 | the linear map's text is read back as its declarations |
| Day8Part1.RepeatingMapParses | src/bin/day8p1.rs:85-91 | the repeating map's text is read back as its declarations |
| Day8Part2.StartNamesAreStartKeys | src/bin/day8p2.rs:29-35 | the start nodes are exactly the declared names ending in `A` |
| Day8Part2.StartNamesSnoc | src/bin/day8p2.rs:33-35 | each line adds its name to the starts when it ends in `A`, keeping declaration order |
| Day8Part2.BuildGraphAndStarts | src/bin/day8p2.rs:26-48 | the loop builds the map and the start list, or names the first malformed line |
| Day8Part2.CountWalkers | src/bin/day8p2.rs:50-74 | every walker's first step on a node ending in `Z`, each with its own direction index, or the first walker's error |
| Day8Part2.WalkerCountsPositive | src/bin/day8p2.rs:53-72 | every walker moves at least once |
| Day8Part2.CombineCounts | src/bin/day8p2.rs:76-79 | the lcm of the counts; no counts is the `unwrap` failure; an lcm past `u64` is an overflow |
| Day8Part2.CombinedIsLeastCommonMultiple | src/bin/day8p2.rs:76-79 | every count divides the answer, and the answer divides and is at most every positive common multiple |
| Day8Part2.FollowInstructions | src/bin/day8p2.rs:16-80 | the lcm of the walkers' counts, or the first error |
| Day8Part2.GhostMapStarts | src/bin/day8p2.rs:87-100 | the example's starts are `11A` and `22A` |
| Day8Part2.GhostMapFirstWalker | src/bin/day8p2.rs:87-100 | the walker from `11A` needs 2 steps |
| Day8Part2.GhostMapSecondWalker | src/bin/day8p2.rs:87-100 | the walker from `22A` needs 3 steps |
| Day8Part2.GhostMapAnswer | src/bin/day8p2.rs:101-104 | the counts 2 and 3 combine to 6 |
| Arithmetic.GcdDivides | src/bin/day8p2.rs:78 | the gcd divides both numbers |
| Arithmetic.GcdGreatest | src/bin/day8p2.rs:78 | every common divisor divides the gcd |
| Arithmetic.LcmCommonMultiple | src/bin/day8p2.rs:78 | both numbers divide their lcm |
| Arithmetic.LcmLeast | src/bin/day8p2.rs:78 | the lcm divides every common multiple |
| Arithmetic.LcmAllCommonMultiple | src/bin/day8p2.rs:76-79 | every element divides the lcm of a sequence |
| Arithmetic.LcmAllLeast | src/bin/day8p2.rs:76-79 | the lcm of a sequence divides every common multiple |
| Day9.Differences | src/bin/day9p1.rs:36-44 | n − 1 elements for n ≥ 1, element i being input[i+1] − input[i] |
| Day9.DiffsIsDifferences | src/bin/day9p1.rs:36-44 | any sequence with those elements is the row of differences |
| Day9.Predict | src/bin/day9p1.rs:10-23 | the last value plus the last value of each row of differences that is not all zero; an empty history is the `unwrap` failure |
| Day9.AllZeroCheck | src/bin/day9p1.rs:15 | true exactly when every element is 0 |
| Day9.ConstantHistory | src/bin/day9p1.rs:13-16 | a constant history predicts the same constant |
| Day9.ArithmeticProgression | src/bin/day9p1.rs:10-23 | an arithmetic progression predicts last + common difference |
| Day9.NextValueExtends | src/bin/day9p1.rs:10-23 | the predicted value extends the difference table by one column |
| Day9.DiffsSnoc | src/bin/day9p1.rs:36-44 | appending a value appends its step from the last value to the differences |
| Day9.NextValue | src/bin/day9p1.rs:10-23 | a one-value history predicts that value |
| Day9.ParseRowSpec | src/bin/day9p1.rs:29-31 | a row is read exactly when every token is an `i32`, and then in order |
| Day9.ParseLines | src/bin/day9p1.rs:25-34 | one history per line of the input; a failure names one of its lines |
| Day9.ParseRowsOk | src/bin/day9p1.rs:25-34 | the histories are the lines' rows, line by line |
| Day9.ParseRowsErr | src/bin/day9p1.rs:25-34 | parsing fails at the first line with a token that is not an `i32` |
| Day9.ExampleDifferences | src/bin/day9p1.rs:50-75 | the difference rows of the three example histories |
| Day9.ExamplePrediction | src/bin/day9p1.rs:77-80 | `10 13 16 21 30 45` predicts 68 |
| Text.JoinSplit | src/bin/day2p1.rs:14 | joining the pieces of a split gives back the text |
| Text.SplitJoin | src/bin/day2p1.rs:32-34 | splitting joined pieces without the separator gives back the pieces |
| Text.SplitPrefix | src/bin/day2p1.rs:32-34 | text without the separator put in front of a string joins its first piece |
| Text.SplitCount | src/bin/day4p1.rs:56-59 | a split has one piece more than separators in the text |
| Text.Find | src/bin/day8p1.rs:28 | the first position at which the pattern occurs, or the end |
| Text.ReplaceLeftmost | src/bin/day1p2.rs:21-30 | `replace` rewrites the leftmost match and continues after it |
| Text.SplitUnwords | src/bin/day2p1.rs:73-75 | splitting words joined by spaces gives back the words |
| Text.LinesOfTwo | src/bin/day6p1.rs:36-37 | two lines joined by a line break are read as those two lines |
| Text.ParseToDecimal | src/bin/day2p1.rs:76 | a number written in decimal parses back to itself below the width limit |
| Text.RunningSumsSnoc | src/bin/day1.rs:12-14 | one more addition keeps every running sum within `i32` exactly when the new sum fits |
| Text.SmallValuesFit | src/bin/day1.rs:10-16 | small non-negative values never overflow the running sum |
| Text.OverflowSpoils | src/bin/day1.rs:10-16 | once a running sum overflows, every longer list of values overflows too |

## Left out

- The `main` functions of all days: they read a file, print and, on days 2 and 4, sum the lines. The day 2 part 1 summing closure is modelled; the other `main` loops are not.
- The diagnostic `println!`s of day 2 are modelled as skipping the roll.
- The `Display` impls of day 4 and the `indoc!` test scaffolding.
- Character classes are ASCII only. `is_numeric`, `is_ascii_punctuation` and `split_whitespace` count only ASCII characters.
- The `HashMap`s and `HashSet`s become Dafny `map`s, `set`s and `multiset`s. Their iteration order is not modelled; where it could matter (the joker group chosen by `max_by_key`), the model proves the result does not depend on it.
- The stale tests are not restated: src/bin/day7p2.rs:167-181 expects part 1 kinds, src/bin/day6p1.rs:93-101 and src/bin/day6p2.rs:70-77 expect the unfiltered distance list, and the part 2 margin test of day 6 is commented out. The model proves the behaviour of the code: all three joker hands are four of a kind, and the filtered list is kept.
- Day3Part1.ComputeSum: the 4361 of the unit test is not restated, because the 10×10 example grid is too large to evaluate symbolically.
- Day3Part2.FindGearRatio: the 821460 of the unit test is not restated, for the same reason.
- Day1Part2.TraverseLines: the example total 281 is not restated; each of the seven lines' values is.
- Day1Part2.CookKeepsDigits: states that literal digits survive the rewriting as a multiset inclusion, not their order. That every spelled digit is found is shown only for the examples.
- Day2Cubes.ExampleMaxima: the example games are written with single spaces from their rolls, not read from the exact text of the test.
- Day2Part1.ExamplePossible: follows `main`, whose `x[1]` gives the validity check the text after `:`; the test passes whole `Game n: …` lines, which Day2Part1.ExampleTestLines states. Both rebuild the example games from their rolls.
- Day2Part2.ComputePower: the `main` of day 2 part 2 indexes `x[1]` and panics on a line without `:`; that `main` is not modelled.
- Day4Part1.ExamplePoints: the example starts from the cards' number sets, not their text lines.
- Day4Part2.CountCards: the copy counts are unbounded `nat`s; the `u32` overflow of `n_cards` and of its sum is not modelled, nor the `as u32` truncation of the match count.
- Day4Part2.ExampleTotal: starts from the example cards' number sets, not the test's text read through `scan_cards`.
- Day5.ExampleMinimum: starts from the seeds and maps of the example, not its text.
- Day6Part1.ExampleMargin: starts from the example's three records. Day6Part1.ReadRaceTable covers reading such a table, written with single spaces.
- Day6Part2.ExampleRaceData: the example lines are written with single spaces between the groups.
- Day7.ReadHands: the kind is computed by Day7.CardCount and Day7.Categorize. The model does not require five cards; hands of other lengths are only compared, never ranked, by the lemmas.
- Day7.ExampleWinnings: starts from the example hands, not the test's text read through `read_hands`; Day7.ParseHandLineFormat and Day7.ExampleHandsValid cover the reading.
- Day7.ExampleSorted: starts from the example hands in the same way.
- Day7.GetWinnings: the rank `i as u32 + 1` is not truncated, which only matters past 2^32 hands.
- Day7.SortHandsSorted: `Vec::sort` is modelled as a stable insertion sort. On valid hands both give the same order: the comparison is a total order that is equal only on identical cards, and Day7.SortStable proves that hands with identical cards keep their input order, as in the stable `Vec::sort`. A comparator that panics midway through the sort (a character that is not a card) is not modelled.
- Day8Graph.CountSteps: a walk that never reaches its target ends in the step counter's overflow (`u32` in part 1, `u64` in part 2) rather than running forever.
- Day9.Predict: the arithmetic is on unbounded integers; the `i32` overflow of the differences and of the predictor is not modelled.
- Day9.ParseRowsOk: the summing `fold` in `main` is not modelled.
- Day3Part1.ScanRow: the `as i32` casts of the column indexes are taken as exact, which holds for lines shorter than 2^31 characters.
- Indexes and lengths are unbounded; `usize` overflow is not modelled.
