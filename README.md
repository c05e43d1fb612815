# Advent of Code 2021, days 1 to 10, in Dafny

This project models the ten puzzle solvers of the Rust crate `advent-of-code-2021`
(`src/d01.rs` to `src/d10.rs`) and proves what each of them computes. Each solver has one
module:

- `D01`: depth readings that increase, alone and over sliding windows of three.
- `D02`: submarine commands (`forward`, `down`, `up`), their parser, and the two ways of
  folding them into a position.
- `D03`: diagnostic bit records. It covers the per-position majority bit, the power
  consumption (gamma times epsilon) and the two filters of the life-support rating.
- `D04`: bingo. `Board` and `Bingo` are classes whose boards are marked in place. The same
  run is also specified as pure functions over the grids (`Mark`, `MarkRound`, `Simulate`,
  `LastWin`), and the methods are proved to equal them.
- `D05`: hydrothermal vent lines, the points each covers, and the number of points covered
  more than once.
- `D06`: lanternfish, simulated with nine timer buckets and an in-place left rotation.
- `D07`: crab alignment, the cheapest position under a linear or a triangular price.
- `D08`: seven-segment displays. It covers the test-pattern classification (`is_three`,
  `is_five`, `is_nine`, `is_six`), pattern lookup and decoding. It proves that the
  classification finds every digit of any genuinely wired display.
- `D09`: smoke basins. It covers low points and the breadth-first search that measures a
  basin, which is proved to count exactly the cells reachable through cells that are not 9.
- `D10`: bracket lines. It covers the first corrupted closer, the stack of expected closers,
  the completion score, and the middle of the completion scores.

Three shared modules stand in for the parts of Rust's standard library that the solvers use:

- `Common`: `Option`, `Result`, `Min`, `Max`.
- `Text`:
  - `trim` and `split_ascii_whitespace`;
  - `split` and `splitn(2, ..)`;
  - `usize` and `i32` parsing, down to the optional `+`, the sign and the range.
- `Seqs`: sums and products over sequences, and a stable insertion sort.

Reading input files (`src/data.rs`) is outside the model. Every solver takes its lines or
values as parameters.

## Model

| member | source | states |
|---|---|---|
| D01.CountIncreases | src/d01.rs:10-18 | fewer than two readings give 0; otherwise at most one increase per adjacent pair |
| D01.CountIncreasesIsIncreaseCount | src/d01.rs:10-18 | the window-of-two fold counts exactly the positions whose next reading is larger |
| D01.CountWindowIncreases | src/d01.rs:5-8 | four or more readings give at most one increase per pair of neighbouring windows, fewer give 0; `CountWindowIncreasesIsLagThreeCount` gives the exact count |
| D01.WindowSums | src/d01.rs:6 | one sum per full window of three (none for fewer than three readings), each the sum of its three readings |
| D01.CountWindowIncreasesIsLagThreeCount | src/d01.rs:5-8 | the window count equals the number of positions `i` with `data[i] < data[i + 3]` |
| D01.Example | src/d01.rs:1-8 | the worked values: 3 increases in `1,2,3,2,5`; the readings `1,2,3,2,5,6` give window sums `6,7,10,13`, with 3 increases |
| D02.ParseCommand | src/d02.rs:14-25 | a parsed distance always fits a `usize` |
| D02.ParseShowCommand | src/d02.rs:14-25 | round trip: every command with a `usize` distance, written as `<direction> <distance>`, parses back to itself |
| D02.UnknownDirection | src/d02.rs:19-23 | any first word other than `forward`, `down` or `up` with a valid distance is "Invalid direction" |
| D02.MissingDistance | src/d02.rs:17 | a single word is "No distance" |
| D02.InvalidDistance | src/d02.rs:18 | a second word that is not a `usize` is "Invalid distance", whatever the first word is |
| D02.BlankLine | src/d02.rs:15-16 | an empty or all-blank line is "No direction" |
| D02.FinalPosition | src/d02.rs:34-43 | horizontal is the sum of the `forward` distances; depth is the `down` total minus the `up` total |
| D02.AimFold | src/d02.rs:46-52 | the three-part fold: horizontal as above, aim equal to the net `down`, depth equal to the sum over `forward` commands of aim-so-far times distance |
| D02.FinalPositionWithAim | src/d02.rs:45-54 | the position with aim: the `forward` total and the aimed depth |
| D02.AimStep | src/d02.rs:47-51 | appending one command changes the aimed state exactly as its match arm says |
| D02.Example | src/d02.rs:34-54 | the worked course ends at 15 and 10 without aim, and at 15 and 60 with aim |
| D03.BitOfChar | src/d03.rs:12 | exactly `'0'` and `'1'` are bits, and `'1'` is bit 1 |
| D03.ParseBits | src/d03.rs:9-16 | Ok exactly when every character of the trimmed line is a binary digit; the bits match the characters one to one; otherwise "Invalid bit" |
| D03.OnesAndZeros | src/d03.rs:21-24 | at a position every record reaches, ones plus zeros make the number of records |
| D03.FindMostCommonBits | src/d03.rs:19-27 | the signed counters give, at each of the 12 positions, 1 exactly when ones are at least zeros (ties give 1) |
| D03.BinaryValueBound | src/d03.rs:29-32 | `n` bits read in base 2 are below `2^n` |
| D03.BitsToNumber | src/d03.rs:29-32 | a non-empty record of at most 64 bits reads as its binary value; every error is "Invalid bits" |
| D03.ComplementSum | src/d03.rs:36 | a value plus that of its complement is `2^n - 1` |
| D03.PowerConsumption | src/d03.rs:34-40 | the result is gamma times (4095 - gamma), gamma being the 12 majority bits read in base 2 |
| D03.Retain | src/d03.rs:49 | `retain` keeps only records taken from the input that have the chosen bit at the position, as many as there are such records |
| D03.RetainSubsequence | src/d03.rs:49 | `retain` keeps the survivors in their original order |
| D03.FilterOutcome | src/d03.rs:46-51 | the filter loop leaves at most one record, taken from the input in order |
| D03.FilterForRating | src/d03.rs:42-55 | the loop equals the filter specification; none left is "No remaining data", one left is read as a number |
| D03.MostCommonKeepsSome | src/d03.rs:46-51 | with the majority criterion a step never empties two or more records |
| D03.LeastCommonCanEmpty | src/d03.rs:46-53 | with the minority criterion two equal records both go, leaving no record for the rating |
| D03.LifeSupportRating | src/d03.rs:57-61 | Ok exactly when both ratings are, with their product as the value; otherwise the first failing rating's error |
| D03.LoneRecordRead | src/d03.rs:46-54 | a single record, of any length, passes the filter untouched and is read as it is |
| D03.DistinctRecordsFilterSafely | src/d03.rs:42-51 | distinct records of one common length of at most 12 never make the filter index out of bounds |
| D04.Mark | src/d04.rs:22-29 | marking keeps the shape, leaves no cell holding the number, and changes no other cell |
| D04.MarkAbsent | src/d04.rs:22-29 | marking a number the board does not hold changes nothing |
| D04.MarkSum | src/d04.rs:13-29 | the unmarked sum falls by the number times its count of occurrences |
| D04.LastHit | src/d04.rs:20-29 | `found_number` is None exactly when the number is not on the board |
| D04.LastHitBefore | src/d04.rs:22-29 | the reported cell holds the number, and no later cell in row-major order does |
| D04.Board.SumUnmarked | src/d04.rs:13-17 | zero exactly when every number left on the board is 0, and never below any number left on it |
| D04.Board.IsWinningRow | src/d04.rs:41-45 | "Invalid row index" exactly when the index is past the last row; otherwise true exactly when every cell of the row is struck out |
| D04.RowCheck | src/d04.rs:41-45 | an index past the rows is "Invalid row index"; otherwise true exactly when every cell of that row is marked |
| D04.ColumnCheck | src/d04.rs:47-53 | `Ok(true)` exactly when every row reaches the column and has it marked; an error means a row too short and is "Invalid item index" |
| D04.MarkOutcome | src/d04.rs:19-39 | false for an absent number; otherwise, barring an error, true exactly when the last marked cell's row or column is now fully marked; "Invalid row index" never comes back, so the only error is "Invalid item index" |
| D04.RectangularMarks | src/d04.rs:31-36 | on a rectangular board `mark_number` never returns an error |
| D04.FreshGrid | src/d04.rs:7-12 | the new board has the data's shape with every number unmarked |
| D04.Board.constructor | src/d04.rs:7-12 | the board's cells are the fresh grid of the data |
| D04.Board.IsWinningColumn | src/d04.rs:47-53 | the loop returns the column check of the current cells |
| D04.Board.MarkNumber | src/d04.rs:19-39 | the cells become the marked grid and the result is the mark outcome of the old cells |
| D04.MarkRound | src/d04.rs:65-71 | the boards keep their number and a winner is a board at or after the starting one; `MarkRoundSpec` states the rest |
| D04.MarkRoundSpec | src/d04.rs:65-71 | one number over all boards: earlier boards untouched; on a win, every board up to the winner marked, earlier ones not winning, later ones untouched; with no win every board marked; an error comes from some board |
| D04.Simulate | src/d04.rs:63-74 | the boards keep their number and a winner's index names one of them; `SimulateFirstWin` states what the winner is |
| D04.SimulateFirstWin | src/d04.rs:63-74 | against the boards with every earlier draw struck out (`MarkedBy`): a win is the first winning board, in board order, of the first draw at which any board wins, with that draw and the board's unmarked sum after the mark; "No winner" exactly when no draw's round is decided, and then every draw has been struck out of every board; any other error is that of the first decided round |
| D04.SimulateSpec | src/d04.rs:63-74 | a win reports the unmarked sum of the winning board and a drawn number; with no boards the result is "No winner" |
| D04.LastWin | src/d04.rs:76-85 | with no boards the result is "No winner"; a success leaves no boards; there are never more boards than at the start |
| D04.LastWinRemovesWinner | src/d04.rs:78-82 | after a win, the next run gets exactly the boards the simulation left without the winner, one fewer and in their order; when the winner was the last board its number and sum are the answer |
| D04.LastWinDrawn | src/d04.rs:76-85 | the last winner's number is one of the drawn numbers |
| D04.MarkRoundRectangular | src/d04.rs:64-71 | with rectangular boards a round never errs and the boards stay rectangular |
| D04.SimulateRectangular | src/d04.rs:63-74 | with rectangular boards the only error is "No winner" |
| D04.ReadCommaJoin | src/d04.rs:114-126 | round trip: numbers joined by commas read back as themselves |
| D04.TrailingComma | src/d04.rs:119-122 | a trailing comma leaves an empty piece, which is "Invalid number" |
| D04.BoardRows | src/d04.rs:99-103 | reading the board lines fails only with "Invalid number" |
| D04.Bingo.constructor | src/d04.rs:105-111 | one fresh board per group of rows, in order, with the given draw numbers |
| D04.Bingo.MarkBoardAt | src/d04.rs:65-66 | marking board `k` changes only board `k`, as `Mark` says, and returns its mark outcome |
| D04.Bingo.MarkRoundOnBoards | src/d04.rs:65-71 | the inner loop over the boards equals `MarkRound` on the boards' grids |
| D04.Bingo.Draw | src/d04.rs:64-71 | one drawn number: an error or a win ends the simulation as `Simulate` says; otherwise the simulation goes on from the next number |
| D04.Bingo.RunSimulation | src/d04.rs:63-74 | the result and the final grids equal `Simulate` of the initial grids |
| D04.Bingo.RemoveBoard | src/d04.rs:80 | `Vec::remove`: the board at the index goes and the others keep their order |
| D04.Bingo.RustSimulationLastWin | src/d04.rs:76-85 | the result and the boards left equal `LastWin` of the initial grids |
| Text.ParseUsizes | src/d04.rs:121-125 | Ok exactly when every piece is a `usize`, with the values in order; otherwise the caller's message ("Invalid number" here, "Invalid item" in src/d06.rs:10) |
| D04.Bingo.ReadNumbers | src/d04.rs:114-126 | the loop equals `ParseUsizes` of the comma or whitespace pieces with "Invalid number" |
| D04.Bingo.GroupBoards | src/d04.rs:96-109 | every non-empty line is a row; every `board_size` rows make a board; leftover rows are dropped; a bad line is "Invalid number" |
| D04.Bingo.Init | src/d04.rs:87-112 | no lines is "No bingo numbers"; Ok exactly when the draw line and every board line parse; the boards are the fresh grids of the grouped rows |
| D05.IsVerticalOrHorizontal | src/d05.rs:29-31 | holds exactly when the two ends share `x` or share `y` |
| D05.StraightLines | src/d05.rs:21-31 | the unit tests' three lines: two straight, one slanted |
| D05.GetPoints | src/d05.rs:41-61 | every line has at least one point, and every point lies in the box the two ends span; `SameYPoints`, `SameXPoints` and `SlantedPoints` give the points exactly |
| D05.SameYPoints | src/d05.rs:42-45 | when the ends share `y`, the points run over every `x` from the lower to the higher end, in order |
| D05.SameXPoints | src/d05.rs:46-49 | when the ends share only `x`, the points run over every `y` from the lower to the higher end, in order |
| D05.SlantedPoints | src/d05.rs:50-58 | a slanted line gives one point per step of its shorter extent, `x` rising; `y` falls when `is_vertically_decreased` and rises otherwise |
| D05.DiagonalEnds | src/d05.rs:50-58 | a 45-degree line passes through both of its ends |
| D05.SwapEnds | src/d05.rs:41-61 | swapping the ends gives the same points in the same order |
| D05.GetPointsExamples | src/d05.rs:126-157 | the point lists of the unit tests, both directions of each line |
| D05.CoveragePositive | src/d05.rs:66-75 | a point is covered at least once exactly when some line passes through it |
| D05.CoverageOrderFree | src/d05.rs:69-72 | coverage does not depend on the order of the lines |
| D05.CountPoints | src/d05.rs:71 | the entry loop adds each point's number of occurrences to its count, starting at 0 for a new key |
| D05.FeedVentsState | src/d05.rs:66-75 | the map's keys are the covered points, each mapped to its number of occurrences in the lines' point lists |
| D05.FindNumberOfPointsThatOverlap | src/d05.rs:77-81 | the result is the number of points covered more than once |
| D05.DoubledLine | src/d05.rs:77-81 | a line given twice overlaps itself at each of its points |
| D05.ParseVentsLine | src/d05.rs:87-98 | every coordinate fits a `usize`; each error is one of the source's messages |
| D05.ParseShowVentsLine | src/d05.rs:87-98 | round trip: a line written as `x1,y1 -> x2,y2` parses back to itself |
| D05.NoArrow | src/d05.rs:90 | text without `" -> "` is "No 'to' point" |
| D05.MissingFromY | src/d05.rs:94 | any line whose start point is a `usize` with no comma (and no space), followed by " -> " and anything, is "No 'from' y" |
| D06.ParseLanternfish | src/d06.rs:7-14 | the push loop equals `ParseUsizes` of the comma pieces with "Invalid item" |
| D06.HistogramTotal | src/d06.rs:18-22 | the nine buckets count every fish once |
| D06.RotateLeft | src/d06.rs:25 | `rotate_left(1)` in place: the array becomes its tail followed by its old head |
| D06.SimulateLanternfishGrow | src/d06.rs:17-30 | the result is the total of the buckets after `cycles` daily steps from the timers' histogram |
| D06.StepBuckets | src/d06.rs:25-26 | after a day, each timer holds the fish of the next timer; timer 6 also takes the parents and timer 8 holds one newborn per parent |
| D06.StepTotal | src/d06.rs:24-27 | a day adds one fish for each fish at timer 0 |
| D06.TotalGrows | src/d06.rs:24-27 | the population never shrinks |
| D06.ZeroCycles | src/d06.rs:17-30 | zero days returns the number of fish |
| D06.OrderFree | src/d06.rs:20-22 | the buckets depend only on the multiset of timers |
| D06.TotalOfBuckets | src/d06.rs:29 | the final fold is the sum of the nine buckets |
| D06.Example | src/d06.rs:17-30 | the fish `3,4,3,1,2` become 26 after 18 days |
| D07.ParsePositions | src/d07.rs:7-14 | Ok exactly when every comma piece is an `i32`, with the values in order; otherwise "Invalid number" |
| D07.ParseCrabs | src/d07.rs:7-14 | the push loop equals `ParsePositions` of the comma pieces |
| D07.TriangularIsStepsSum | src/d07.rs:49-50 | the closed form `d * (d + 1) / 2` equals `1 + 2 + ... + d`, the sum in the commented-out line |
| D07.Lowest | src/d07.rs:18 | `min()` is an element no greater than any other |
| D07.Highest | src/d07.rs:19 | `max()` is an element no smaller than any other |
| D07.CalculateFuelCost | src/d07.rs:17-31 | the result is at most `i32::MAX` and no more than the cost of any candidate from the lowest position up to, but not including, the highest; it is `i32::MAX` or the cost of one of them; with the ends equal it is `i32::MAX`; with no crabs it is 0 |
| D07.ExclusiveScanMissesOptimum | src/d07.rs:22 | for crabs 0, 5, 5 at one fuel per step, the skipped position 5 costs 5 and every scanned position costs at least 6 |
| D07.PricesMonotone | src/d07.rs:42-50 | both prices of the solutions never fall as the distance grows |
| D07.CostDominated | src/d07.rs:23-26 | a position at least as close to every crab costs no more |
| D07.OutsideCostsMore | src/d07.rs:18-22 | below the lowest crab or above the highest, the nearer end costs no more |
| D07.CalculateFuelCostInclusive | src/d07.rs:17-31 | the scan including the highest position: the least cost over the candidates (or `i32::MAX`), and with a price that never falls, no position at all costs less |
| D07.CostOrderFree | src/d07.rs:23-26 | the cost does not depend on the order of the crabs |
| D07.TriangularAtLeastLinear | src/d07.rs:42-50 | the rising price never costs less than one fuel per step |
| D07.ExampleLinear | src/d07.rs:42 | the worked crabs aligned on 2 cost 37 at one fuel per step |
| D07.ExampleTriangular | src/d07.rs:50 | the worked crabs aligned on 5 cost 168 at the rising price |
| D08.ParseEntry | src/d08.rs:14-19 | both halves of an entry are lists of words |
| D08.ParseShowEntry | src/d08.rs:14-19 | round trip: an entry written as `<test words> \| <output words>` parses back to itself |
| D08.CountUniqueLengths | src/d08.rs:26-31 | no more patterns are counted than there are |
| D08.CalculateKnownDigits | src/d08.rs:22-34 | no more known digits than there are output patterns; `CalculateKnownDigitsIsOutputCount` gives the count |
| D08.CountUniqueLengthsIsCount | src/d08.rs:26-31 | the filter counts exactly the positions whose pattern has 2, 3, 4 or 7 segments |
| D08.CalculateKnownDigitsIsOutputCount | src/d08.rs:22-34 | summing entry by entry counts the same patterns as one pass over every output |
| D08.KnownDigitsOfDisplay | src/d08.rs:22-34 | on a genuinely wired display without repeated wires, the count is the number of digits 1, 4, 7 and 8 shown |
| D08.ShownUnique | src/d08.rs:28 | a shown digit has 2, 3, 4 or 7 lit wires exactly when it is 1, 4, 7 or 8 |
| D08.Chars | src/d08.rs:82-83 | the set of a pattern holds exactly its characters |
| D08.PatternsEqual | src/d08.rs:81-85 | two patterns are equal exactly when they light the same wires |
| D08.PatternsEqualProperties | src/d08.rs:81-85 | pattern equality is an equivalence that ignores order and repeated wires |
| D08.MissingCount | src/d08.rs:88-89 | at most the pattern's length, and 0 exactly when every wire of `from` is in the input |
| D08.MissingCountOfSets | src/d08.rs:88-89 | without repeats, the missing count is the size of the set difference |
| D08.Slot | src/d08.rs:44-60 | the slot chosen for a test pattern is a digit below ten |
| D08.EqualLengthOrderMatters | src/d08.rs:43-60 | for an entry that is not a genuine display, two patterns of two segments compete for the slot of 1, and whichever comes later stays |
| D08.SortByLength | src/d08.rs:43 | the sort permutes the patterns into non-decreasing length |
| D08.ShorterComesFirst | src/d08.rs:43 | after the sort, every shorter pattern precedes a longer one |
| D08.SegmentDifferences | src/d08.rs:87-106 | the standard digit shapes differ as the four tests need, for example 1 lies inside 3 but not inside 2 |
| D08.TenDigitsMissing | src/d08.rs:87-106 | on a genuine display the missing counts between patterns equal those between the digit shapes |
| D08.ShowsMatches | src/d08.rs:81-85 | a shown pattern equals the mapping of exactly its own digit |
| D08.SlotOfFiveSegments | src/d08.rs:48-52 | with 1 and 4 known, `is_three` and `is_five` send the five-segment digits 2, 3 and 5 to their own slots |
| D08.SlotOfSixSegments | src/d08.rs:53-57 | with 1 and 5 known, `is_nine` and `is_six` send the six-segment digits 0, 6 and 9 to their own slots |
| D08.SlotOfDigit | src/d08.rs:44-60 | every digit's pattern goes to its own slot once the shorter digits are placed |
| D08.ClassifyTenDigits | src/d08.rs:44-61 | classifying the sorted test patterns fills every slot with its own digit's pattern |
| D08.MappingsOfTenDigits | src/d08.rs:41-61 | for any genuine wiring and any order of the ten test patterns, `mappings[d]` is the pattern of digit `d` |
| D08.MatchFrom | src/d08.rs:75-78 | the search returns the first mapping equal to the pattern, or None when there is none |
| D08.ParsePattern | src/d08.rs:74-79 | the loop returns the decimal index of the first equal mapping, or None |
| D08.DecodeDigitsFound | src/d08.rs:63-65 | the output fold succeeds exactly when every output pattern has a mapping |
| D08.MatchShown | src/d08.rs:74-79 | a shown pattern is found at its own digit |
| D08.DecodeMatched | src/d08.rs:63-65 | patterns found at digits `ds` decode to the digit string of `ds` |
| D08.DecodeShown | src/d08.rs:63-65 | the outputs of a genuine display decode to the digits shown |
| D08.EntryValueOfDisplay | src/d08.rs:63-68 | an entry from a genuine display decodes without a panic, to the number its digits show |
| D08.BuildMappings | src/d08.rs:41-61 | the sort and classification loop equals the `Mappings` specification |
| D08.DecodeOutput | src/d08.rs:63-65 | the fold loop returns the decoded digit string |
| D08.ParseEntriesAndSum | src/d08.rs:36-72 | the result is the sum of the entries' decoded values |
| D09.ParseRow | src/d09.rs:9-12 | one height below ten per character |
| D09.ParseShowRow | src/d09.rs:9-12 | heights written as digits parse back to themselves |
| D09.ShowParseRow | src/d09.rs:9-12 | a digit line parsed and written again is unchanged |
| D09.LowPointMeaning | src/d09.rs:26-51 | the four tests hold exactly when every orthogonal neighbour inside the grid is strictly higher |
| D09.FindLowPoints | src/d09.rs:21-55 | every reported point is a low point with its height; every low point is reported; the list is in row-major order |
| D09.Enqueue | src/d09.rs:72-86 | one neighbour test keeps the search invariant, enqueues at most that neighbour, and leaves an open neighbour visited or queued |
| D09.VisitNeighbours | src/d09.rs:72-86 | after the four tests the newly visited cell has every open neighbour visited or queued |
| D09.SearchDone | src/d09.rs:69-88 | when the queue runs dry the visited cells are exactly the basin, so their number is the basin size |
| D09.WalkStaysInside | src/d09.rs:69-88 | with an empty queue, every walk from the low point stays among the visited cells |
| D09.GetBasinSize | src/d09.rs:63-89 | the result is the number of cells reachable from the low point through cells other than 9 |
| D09.BasinShape | src/d09.rs:63-89 | a basin holds its low point, lies in the grid, has no 9 besides possibly the start, and has between 1 and the grid size cells |
| D09.BasinClosed | src/d09.rs:72-86 | an open neighbour of a basin cell is in the basin |
| D09.WalledInBasin | src/d09.rs:72-86 | a start without open neighbours is a basin of one cell |
| D09.TakeReversed | src/d09.rs:60 | `rev().take(n)` keeps `min(n, len)` elements |
| D09.TakeReversedAt | src/d09.rs:60 | the `k`-th element taken is the `k`-th from the end |
| D09.TakeReversedMultiset | src/d09.rs:60 | the elements taken are the last `min(n, len)` of the sequence |
| D09.BiggestThree | src/d09.rs:59-60 | the three chosen sizes (fewer when there are fewer basins) come from the sizes, and no size left out is larger than a chosen one |
| D09.FewBasins | src/d09.rs:60 | with three basins or fewer the result is the product of all sizes |
| D09.MultiplyThreeBiggestBasins | src/d09.rs:57-61 | the result is the product of the three largest basin sizes |
| D10.CharToScoreOfClosers | src/d10.rs:15-23 | a positive score belongs exactly to the four closers, at most 25137 |
| D10.AnalyzeFromConcat | src/d10.rs:64-92 | analysing `a + b` is analysing `a` and going on with `b` from the stack left |
| D10.ErrorPersists | src/d10.rs:70-89 | once a prefix is corrupted, the whole line reports the same character |
| D10.StackOfClosers | src/d10.rs:66-69 | the stack holds only closers |
| D10.CorruptedAt | src/d10.rs:70-89 | a corrupted line has a first position where a closer meets a different expected closer, and that closer is reported |
| D10.CorruptedIsCloser | src/d10.rs:70-89 | the reported character is a closer |
| D10.Ignored | src/d10.rs:70-90 | a character that is no bracket, or a closer on an empty stack, changes nothing |
| D10.RenderChunkBalanced | src/d10.rs:61-95 | a well-formed chunk leaves any stack as it found it |
| D10.WellNestedLine | src/d10.rs:61-95 | a line of well-formed chunks is complete, with an empty stack |
| D10.UnclosedStack | src/d10.rs:61-95 | a line that leaves openers unclosed, with well-formed chunks between them, yields their closers in opening order |
| D10.Completion | src/d10.rs:61-95 | appending the stack's closers, last first, completes any uncorrupted line |
| D10.FindCorruptedChar | src/d10.rs:25-59 | Some exactly when the analysis fails, with the same character |
| D10.AnalyzeChars | src/d10.rs:61-95 | the loop equals the `Analyze` fold |
| D10.LineErrorScoreValues | src/d10.rs:130-140 | a line scores 0 when not corrupted, and 3, 57, 1197 or 25137 when corrupted |
| D10.CalculateCorruptedChars | src/d10.rs:130-140 | the total is between 0 and 25137 per line, and 0 when no line is corrupted |
| D10.CorruptedCharsOrderFree | src/d10.rs:130-140 | the total does not depend on the order of the lines |
| D10.CalculateScore | src/d10.rs:113-128 | the popping loop equals the base-5 `StackScore` of the stack |
| D10.StackScoreDigits | src/d10.rs:113-128 | the score is 0 only for an empty stack; its last base-5 digit is the points of the first closer |
| D10.StackScoreInjective | src/d10.rs:113-128 | different stacks of closers get different scores |
| D10.CompletionScoresNonEmpty | src/d10.rs:97-107 | one uncorrupted line is enough for a score list that is not empty |
| D10.BalancedLineScoresZero | src/d10.rs:99-104 | a complete line adds a score of 0 |
| D10.FindMiddleCompletionsScore | src/d10.rs:97-111 | the result is the middle element of the sorted scores of the uncorrupted lines |
| D10.MiddleIsMedian | src/d10.rs:108-110 | the middle element is a score, with more than half the scores at most it and at least half at least it |
| D10.ExampleIncomplete | src/d10.rs:61-128 | the worked incomplete line leaves `])})]]}}`, whose completion `}}]])})]` scores 288957 |

## Left out

- Reading the input (`src/data.rs`, and the `File`/`BufReader` part of `Bingo::init`, with its "Unable to read data" and "Unable to read next line" errors): every solver takes its lines or values as parameters.
- The unit tests' puzzle data files and their expected answers: these depend on the data files.
- Fixed-width arithmetic: integers are unbounded, so `usize`, `u32` and `i32` overflow is not modelled. The one exception is the `usize` subtraction of day 2: `depth - v` in `calculate_submarine_position` and `aim - v` in `calculate_submarine_position_with_aim`. Their precondition `StaysSubmerged` keeps both the depth and the aim at zero or above.
- Panics are preconditions. These cover:
  - the 12 counters of `find_most_common_bits` (`Fits`) and the filter's indexing (`FilterSafe`);
  - ragged grids in `get_basin_size` (`Rectangular`);
  - timers of 9 or more in `simulate_lanternfish_grow` (`ValidTimers`);
  - test patterns whose length is not 2 to 7, and unmatched or unparsable outputs, in `parse_entries_and_sum` (`ValidLengths`, `Decodable`);
  - an entry without `" | "` (`ParseEntry`);
  - non-digit characters in a day 9 row (`ParseRow`);
  - an empty score list in `find_middle_completions_score`.
- D08.SortByLength: `sort_unstable_by_key` may order patterns of equal length in any way, and the model uses a stable sort. For an entry that is a genuine display (`TenDigits`), `MappingsOfTenDigits` holds for every input order, so the order among equal lengths does not change the result. For any other entry, the later of two patterns for one slot wins, so the model's stable order may differ from the source's. `EqualLengthOrderMatters` shows two such orders with different results.
- D05.ParseVentsLine: its error set leaves out "No 'from' point". `splitn` always yields a first piece, so that error cannot happen.
- D03.PowerConsumption: records shorter than 12 bits leave tied counters, so gamma gets trailing 1 bits. The model keeps this behaviour of the source.
- The risk-level sum of day 9, part 1, which exists only inside a unit test.
- The `Row` parser of day 10, which only collects the characters of a line. A line is a `string` here.
- All the day 6 arithmetic is unbounded. The 256-day population fits in a `usize`, but the model does not bound it.
- Bingo.MarkBoardAt and Bingo.Draw are steps of the two loops of `run_simulation`. They are separate methods so that each proof stays small.

## Findings

| source | as written | input that shows it | evidently intended | confidence | as-written member | corrected member |
|---|---|---|---|---|---|---|
| src/d07.rs:22 | the candidates `min_position..max_position` leave out the highest crab position | crabs `0,5,5` at one fuel per step: position 5 costs 5, but every scanned position costs at least 6; crabs all at one position give `i32::MAX` | scan `min_position..=max_position` | not executed; proved | D07.ExclusiveScanMissesOptimum | D07.CalculateFuelCostInclusive |
