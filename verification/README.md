# Advent of Code 2023 solvers, modelled in Dafny

This project models the computational cores of a set of independent puzzle
solvers. Each solver reads a text input and prints a number. The model
starts after the file reading and the regular-expression tokenising. It
takes the already split lines, grids, triples, hands and nodes as inputs and
models what the solver then computes:

- **Calibration** (`d01.dfy`, day 1): the first and last decimal digit of a line.
- **Scratchcards** (`d04.dfy`, day 4): the matches of a card, and the copy
  counts propagated forward in place.
- **Almanac** (`d05.dfy`, day 5): range maps applied in seven stages, and the
  seed scan that skips ahead by a safe jump.
- **BoatRace** (`d06.dfy`, day 6): the binary search over hold times, and the
  product over races.
- **CamelCards** (`d07.dfy`, day 7): card values, card-by-card comparison,
  hand types with and without jokers, the sort, and the rank-weighted sum.
- **Wasteland** (`d08.dfy`, day 8): the left/right walk to the first End node,
  and the LCM of the ghost walks.
- **Oasis** (`d09.dfy`, day 9): extrapolation forward and backward through
  rows of differences.
- **PipeMaze** (`d10.dfy`, day 10):
  - the tile table and start-shape inference;
  - the FIFO trace that labels each loop tile with its distance;
  - the row sweep that counts enclosed tiles;
  - `d10_square.dfy` (PipeMazeSquare): the square loop of the tests, followed
    from its text through the parse and the trace to both answers.
- **CosmicExpansion** (`d11.dfy`, day 11): empty-row and empty-column flags,
  and the sum of expanded pairwise distances. A galaxy's column is the byte
  offset `char_indices` yields, while `col_is_empty` is as wide as the first
  line has characters; the model keeps both measures.

`wrappers.dfy` holds the shared `Option`/`Result` types. A Rust panic is
never a precondition. An `unwrap` on nothing, an out-of-range index, a
`panic!`, an `unimplemented!` or an unsigned underflow becomes a `None` or
an `Err` result. The exception is a panic inside the comparator of the
day-7 sort, which depends on which pairs the library sort compares (see
"Left out").

Every imperative routine of the Rust code is a Dafny `method` with its loops
and their invariants. Each method but four is proved equal to a
specification function (or, for an array it updates, to one stated on the
old contents), and the properties are proved about that function as
lemmas. The four exceptions are the day-10 trace (`TraceLoop`, `TraceFrom`)
and its two handlers (`HandlePart1`, `HandlePart2`). They are proved to
return a result satisfying `LoopTraced`, which `TraceIsUnique` shows fixes
the labels and the maximum. Which inputs make them fail is not
characterised (see "Left out"). The
in-place `card_copies` update of day 4 and the row/column flags of day 11
work on `array`s. `parse_maze` of day 10 rewrites its maze one tile at a time. The model keeps
that maze in a `seq` the loop reassigns, and proves the trace against the
invariant `LoopTraced`.

Three behaviours of the day-10 code that the model keeps:

- The parse accepts rows of different lengths. It does not check that
  exactly two neighbours of the start connect: with fewer, it falls back to
  SouthWest.
- The trace always terminates: every pop either discards a record or
  labels a new tile, and every tile is labelled at most once.
- A step off the grid is never skipped; it ends in a panic. With overflow
  checks, `row - 1` on row 0 or `column - 1` on column 0 panics as soon as
  the tile's targets are computed (d10/src/main.rs:150-155). Without them,
  the wrapped index, like a step past the last row or the end of a row,
  panics when it is popped (d10/src/main.rs:142). The model queues the
  off-grid position and fails with `OffGrid` when it is popped; it does not
  say which panic comes first when several are pending.

## Model

| member | source | states |
|---|---|---|
| Calibration.DigitValue | d01/src/main.rs:27 | only `'0'`..`'9'` have a digit value, which is the character minus `'0'` and below 10 |
| Calibration.Calibration | d01/src/main.rs:23-37 | `None` (the `unwrap` panic) exactly when no character of the line is a digit; otherwise the value is at most 99 |
| Calibration.CalibrationFromLine | d01/src/main.rs:23-38 | the character loop that keeps the first digit and overwrites the last returns `Calibration(line)` |
| Calibration.NoDigitsNoValues | d01/src/main.rs:26-27 | the digit list is empty exactly when no character is a digit |
| Calibration.NonDigitIgnored | d01/src/main.rs:26-27 | inserting a non-digit anywhere in a line does not change its value |
| Calibration.DigitsBetween | d01/src/main.rs:26-34 | the digits of a line are its first digit, the digits between, and its last digit |
| Calibration.CalibrationReadsEnds | d01/src/main.rs:26-37 | with first digit `d` and last digit `e`, the value is `10*d + e`, whatever lies between |
| Calibration.SingleDigit | d01/src/main.rs:26-37 | a line with a single digit `d` is worth `11*d` |
| Calibration.ExampleOne | d01/src/main.rs:56 | `"1abc2"` gives 12 |
| Calibration.ExampleTwo | d01/src/main.rs:57 | `"pqr3stu8vwx"` gives 38 |
| Calibration.ExampleThree | d01/src/main.rs:58 | `"a1b2c3d4e5f"` gives 15 |
| Calibration.ExampleFour | d01/src/main.rs:59 | `"treb7uchet"` gives 77 |
| Scratchcards.Matches | d04/src/main.rs:53-59 | a number is a match exactly when it is both an own number and a winning number |
| Scratchcards.ComputeLine | d04/src/main.rs:36-62 | the two set-filling loops return the number of distinct matches |
| Scratchcards.MatchesAreIntersection | d04/src/main.rs:48-61 | the matches are the intersection of the own-number set and the winning set |
| Scratchcards.RepeatCountedOnce | d04/src/main.rs:56-61 | repeating an own number does not change the count |
| Scratchcards.MatchesBounded | d04/src/main.rs:53-61 | there are never more matches than distinct own numbers |
| Scratchcards.Copies | d04/src/main.rs:22-31 | every card ends with at least its one original copy |
| Scratchcards.MatchCounts | d04/src/main.rs:24-25 | entry `i` is the match count of card `i` |
| Scratchcards.PartialStep | d04/src/main.rs:24-31 | processing card `index` adds its final copy count to cards `index+1..=index+res` and to no other card |
| Scratchcards.PartialFinal | d04/src/main.rs:24-30 | a card's count is final once the cards before it are processed, so the value read at line 26 is final |
| Scratchcards.AddCopies | d04/src/main.rs:28-30 | the inner loop adds `amount` to cards `index+1..=index+res` of the array; every other entry is unchanged |
| Scratchcards.SumCopies | d04/src/main.rs:33 | summing the final array gives the total number of copies |
| Scratchcards.CountScratchcards | d04/src/main.rs:10-33 | `None` (the out-of-range panic) exactly when some card's matches reach past the last card; otherwise the total of all copies |
| Scratchcards.TotalAtLeastCards | d04/src/main.rs:22-33 | the total is at least the number of cards |
| Scratchcards.FirstCardOnce | d04/src/main.rs:22-26 | the first card ends with exactly one copy |
| Scratchcards.UnreachedCardOnce | d04/src/main.rs:24-31 | a card that no earlier card's matches reach wins no copies |
| Almanac.FindRange | d05/src/main.rs:90-93 | a found index is in the list, and its range contains the source |
| Almanac.FindRangeIsFirst | d05/src/main.rs:90-93 | the found range is the first one containing the source; nothing is found exactly when no range contains it |
| Almanac.MinGap | d05/src/main.rs:97-107 | the jump of the not-found branch is at least 1 |
| Almanac.MinGapIsMin | d05/src/main.rs:97-107 | the jump is the least of the per-range gaps (`usize::MAX` for ranges behind), and it is one of them |
| Almanac.Lookup | d05/src/main.rs:90-117 | fails (the `min().unwrap()` panic) exactly on an empty map; the jump is at least 1 in both branches |
| Almanac.DestinationAndJump | d05/src/main.rs:83-118 | a missing map name is the `unwrap` panic; otherwise the lookup in that map |
| Almanac.NotFoundSkipSafe | d05/src/main.rs:95-110 | in the not-found branch every value in `[source, source+jump)` is in no range and maps to itself |
| Almanac.FoundSkipSafe | d05/src/main.rs:111-116 | with non-overlapping ranges, every value in `[source, source+jump)` hits the same range and is shifted by the same offset |
| Almanac.LookupTranslates | d05/src/main.rs:90-116 | within the jump, one map adds a fixed offset |
| Almanac.Chain | d05/src/main.rs:46-72 | the composed jump of the stages is at least 1, so the seed loop advances |
| Almanac.ChainOkIffComplete | d05/src/main.rs:46-57 | the seven lookups succeed exactly when every map is present and non-empty, whatever the seed |
| Almanac.ChainTranslates | d05/src/main.rs:46-72 | within the smallest jump of the seven stages, the location grows exactly as fast as the seed |
| Almanac.Scan | d05/src/main.rs:41-75 | the scan's minimum never exceeds its starting value |
| Almanac.ScanOkIffComplete | d05/src/main.rs:45-73 | a non-empty seed range panics exactly when a map is missing or empty |
| Almanac.ScanIsMin | d05/src/main.rs:41-75 | the skipping scan is at most the location of every seed in the range, and it equals the start value or one such location: the true minimum |
| Almanac.SeedPairMin | d05/src/main.rs:41-75 | the `while` loop over one seed pair computes `Scan` from `usize::MAX` |
| Almanac.Lowest | d05/src/main.rs:35-78 | no seed pair at all is the `min().unwrap()` panic |
| Almanac.LowestErrStays | d05/src/main.rs:35-78 | a failing pair decides the result; the pairs after it do not matter |
| Almanac.LowestIsLower | d05/src/main.rs:77-78 | with complete, non-overlapping maps, the answer is at most the location of every seed of every pair |
| Almanac.LowestIsAttained | d05/src/main.rs:77-78 | ... and it is the location of one of those seeds, or `usize::MAX` when the pairs hold none |
| Almanac.LowestFailsWhenIncomplete | d05/src/main.rs:88-107 | a missing or empty map makes the answer fail once any pair holds a seed |
| Almanac.AllPairsMin | d05/src/main.rs:35-78 | the per-pair minima, folded with `min`, compute `Lowest` |
| Almanac.LowestLocation | d05/src/main.rs:35-78 | `main` is `Lowest` over the seven stages in their fixed order |
| BoatRace.EvaluateSymmetric | d06/src/main.rs:55-57 | holding for `t` or `total - t` covers the same distance |
| BoatRace.EvaluateExamples | d06/src/main.rs:63-68 | `evaluate(1,7)=6`, `evaluate(2,7)=10`, `evaluate(3,7)=12` |
| BoatRace.EvaluateMonotone | d06/src/main.rs:55-57 | up to the middle, holding longer never goes less far |
| BoatRace.EvaluatePeak | d06/src/main.rs:55-57 | the middle hold time goes furthest |
| BoatRace.CountIn | d06/src/main.rs:52 | the winning hold times in an interval are at most its length |
| BoatRace.WinsBetween | d06/src/main.rs:52 | when `m` loses and `m+1` wins in the first half, the number of winning hold times in `0..=total` is `total - 2m - 1` |
| BoatRace.NoWins | d06/src/main.rs:36-53 | a record that the middle hold time cannot beat cannot be beaten at all |
| BoatRace.WinnableIffPeakBeats | d06/src/main.rs:36-53 | a race can be won exactly when the middle hold time beats the record |
| BoatRace.WaysToWinAsWritten | d06/src/main.rs:36-53 | the bisection as written: underflow (`None`) exactly when `total` is 0; with a winnable race, the exact count of winning hold times; with an unwinnable one and `total >= 2`, `1 + total % 2` |
| BoatRace.WaysToWin | d06/src/main.rs:36-53 | the corrected search returns the exact number of winning hold times |
| BoatRace.UnbeatableRace | d06/src/main.rs:36-53 | for `total = 4` and `distance = 4` no hold time wins, yet the code's formula gives 1 |
| BoatRace.ProductZeroIff | d06/src/main.rs:26-31 | the true product (`WaysProduct`) is 0 exactly when some race cannot be won |
| BoatRace.WaysAsWritten | d06/src/main.rs:36-53 | the answer as written, stated per case: `None` for a race of length 0, the true count for a winnable race, 0 for `total = 1`, `1 + total % 2` for a longer unwinnable race |
| BoatRace.AsWrittenAgrees | d06/src/main.rs:36-53 | for `total > 0` the answer as written exists, and it is the true count exactly when the race is winnable or lasts one millisecond |
| BoatRace.ProductAsWritten | d06/src/main.rs:26-31 | the product `main` computes over the first `n` zipped races, `None` once one race underflows |
| BoatRace.ProductAsWrittenMeets | d06/src/main.rs:26-31 | the product as written fails exactly when some race lasts 0 milliseconds, and equals the true product when every race is winnable |
| BoatRace.UnbeatableProduct | d06/src/main.rs:26-31 | for the single race `4`/`4`, `main` gives 1 while the true product is 0 |
| BoatRace.RaceProduct | d06/src/main.rs:26-31 | `main` as written: zipping (cut to the shorter list) and multiplying `get_ways_to_win`; `None` exactly when there is no race (the `reduce().unwrap()` panic) or a zipped race lasts 0 milliseconds (the underflow); otherwise the product as written |
| BoatRace.CorrectedRaceProduct | d06/src/main.rs:26-31 | the corrected product: the same zip, multiplying the true counts; `None` exactly when there is no race |
| CamelCards.Cmp | d07/src/main.rs:142 | `Less` exactly when smaller, `Greater` exactly when larger |
| CamelCards.CardValue | d07/src/main.rs:152-169 | every valued card is worth 1 to 14 |
| CamelCards.CardValueTable | d07/src/main.rs:152-169 | exactly the thirteen cards `AKQJT98765432` have a value; `J` is 1; each digit is its own value |
| CamelCards.CardValueInjective | d07/src/main.rs:152-169 | different cards have different values |
| CamelCards.JokerWeakest | d07/src/main.rs:157 | the joker is weaker than every other card |
| CamelCards.CompareValues | d07/src/main.rs:138-150 | hands of valid cards always compare |
| CamelCards.CompareFlips | d07/src/main.rs:138-150 | swapping the hands flips the ordering |
| CamelCards.CompareEqualIffSame | d07/src/main.rs:138-150 | `Equal` exactly when the zipped cards are the same throughout |
| CamelCards.CompareFindsFirstDifference | d07/src/main.rs:138-150 | otherwise the answer is the value order at the first position where the cards differ |
| CamelCards.CompareHandsValues | d07/src/main.rs:138-150 | the loop with `break` computes `CompareValues` |
| CamelCards.CompareExampleEqual | d07/src/main.rs:209 | `32T3K` against itself is `Equal` |
| CamelCards.CompareExampleGreater | d07/src/main.rs:210 | `32T4K` against `32T3K` is `Greater` |
| CamelCards.CompareExampleLess | d07/src/main.rs:211 | `32T4K` against `3AT3K` is `Less` |
| CamelCards.Rank | d07/src/main.rs:48-57 | the derived order ranks the seven types from 0 to 6 |
| CamelCards.RankOrder | d07/src/main.rs:201-204 | ranks are equal only for equal types; five of a kind beats a full house |
| CamelCards.Tally | d07/src/main.rs:61-71 | the map has an entry for exactly the cards of the hand |
| CamelCards.TallyCounts | d07/src/main.rs:61-71 | each entry is the number of occurrences of its card |
| CamelCards.Order | d07/src/main.rs:61-73 | the collected keys are exactly the cards of the hand |
| CamelCards.OrderDistinct | d07/src/main.rs:61-73 | no card is collected twice |
| CamelCards.Values | d07/src/main.rs:72-73 | the collected counts line up with their keys |
| CamelCards.CountsSumToLength | d07/src/main.rs:61-73 | the counts add up to the length of the hand |
| CamelCards.SortDesc | d07/src/main.rs:75-76 | `sort` then `reverse` gives the counts largest first, as a permutation |
| CamelCards.SumSortDesc | d07/src/main.rs:75-76 | sorting keeps the total of the counts |
| CamelCards.HandTypeOf | d07/src/main.rs:60-93 | `None` (the out-of-range `values[0]`) exactly for the empty hand |
| CamelCards.FiveCardPatterns | d07/src/main.rs:78-92 | the seven count patterns of a five-card hand get the seven types |
| CamelCards.Without | d07/src/main.rs:107 | removing `J` leaves exactly the other keys |
| CamelCards.AddJokers | d07/src/main.rs:114-119 | the jokers join the largest count, or stand alone; the total grows by the jokers |
| CamelCards.JokerValues | d07/src/main.rs:107-119 | the joker rule always classifies a non-empty list of counts |
| CamelCards.KeptPlusJokers | d07/src/main.rs:107-109 | the other cards' counts plus the jokers make up the hand |
| CamelCards.JokerCountsSumToLength | d07/src/main.rs:107-119 | the counts the joker rule classifies add up to the length of the hand |
| CamelCards.NoJokerSameType | d07/src/main.rs:95-136 | a hand without `J` gets the same type under both rules |
| CamelCards.JokersOnlyFive | d07/src/main.rs:115-122 | a hand of jokers only is five of a kind |
| CamelCards.HandExampleT55J5 | d07/src/main.rs:180 | `T55J5` is three of a kind, and four of a kind under the joker rule (line 191) |
| CamelCards.CountCards | d07/src/main.rs:61-71 | the counting `fold` produces the tally and the first-seen key order |
| CamelCards.AddCard | d07/src/main.rs:98-103 | one step of the fold bumps the card's count and appends a new card to the order |
| CamelCards.GetHandType | d07/src/main.rs:60-93 | count, sort largest first and run down the tests: `HandTypeOf` |
| CamelCards.KeptCounts | d07/src/main.rs:107-109 | the counts left once `J` is removed, in key order |
| CamelCards.SplitJokers | d07/src/main.rs:96-109 | the other cards' counts and the removed joker count |
| CamelCards.GetHandTypeWithJokers | d07/src/main.rs:95-136 | the joker variant computes `HandTypeWithJokers` |
| CamelCards.NotAfterTotal | d07/src/main.rs:28-31 | of two hands, one may always precede the other under the comparator |
| CamelCards.InsertHand | d07/src/main.rs:28-31 | insertion adds exactly the one hand |
| CamelCards.InsertHandSorted | d07/src/main.rs:28-31 | inserting keeps the hands ordered by type, then by cards |
| CamelCards.SortHands | d07/src/main.rs:28-31 | the sorted hands are ordered by the comparator and are a permutation of the input |
| CamelCards.WinningsAtLeastBids | d07/src/main.rs:33-36 | every bid counts at least once |
| CamelCards.WinningsAtMostRankTimesBids | d07/src/main.rs:33-36 | no bid counts more than the number of hands |
| CamelCards.Typed | d07/src/main.rs:12-26 | one typed hand per input line |
| CamelCards.TypeHands | d07/src/main.rs:12-26 | the parsing `map` types every hand with the joker rule |
| CamelCards.SumWinnings | d07/src/main.rs:33-36 | the `fold` sums `(i + 1) * bid` |
| CamelCards.TotalWinnings | d07/src/main.rs:9-36 | `main` is the rank-weighted sum over the sorted typed hands |
| Wasteland.TypeOf | d08/src/main.rs:31-35 | by name, `AAA` is Start and `ZZZ` is End; by last character (lines 100-104), `A` is Start and `Z` is End |
| Wasteland.BuildNetwork | d08/src/main.rs:24-46 | the map has exactly the names of the lines |
| Wasteland.LastLineWins | d08/src/main.rs:24-46 | the node stored under a name comes from its last line |
| Wasteland.Step | d08/src/main.rs:76-79 | a step succeeds exactly when the map holds the left or right successor |
| Wasteland.WalkCycles | d08/src/main.rs:75 | after whole rounds of `cycle()`, the walk continues as a fresh walk from the node reached |
| Wasteland.Search | d08/src/main.rs:75-85 | a found count lies beyond the steps already taken |
| Wasteland.Counter | d08/src/main.rs:66-88 | an empty direction list gives 0 |
| Wasteland.SearchMeaning | d08/src/main.rs:75-85 | each outcome of the search: first End, a missing node, or a clear bound |
| Wasteland.FirstEventsExclusive | d08/src/main.rs:75-85 | the first End and the first missing node are unique and exclude one another |
| Wasteland.CounterMeaning | d08/src/main.rs:75-85 | the counter is exactly the least `n >= 1` whose node is End; it fails on a missing node exactly when one comes first |
| Wasteland.NodeCounter | d08/src/main.rs:66-88 | the cycling `for` loop computes `Counter` |
| Wasteland.PartOne | d08/src/main.rs:23-64 | no `AAA` line is the `unwrap` panic |
| Wasteland.Handle | d08/src/main.rs:23-64 | `handle` computes `PartOne` |
| Wasteland.Gcd | d08/src/main.rs:140 | the gcd is 0 only for two zeros |
| Wasteland.GcdDivides | d08/src/main.rs:140 | the gcd is a common divisor and every common divisor divides it |
| Wasteland.LcmCommonMultiple | d08/src/main.rs:140 | the lcm is a multiple of both numbers |
| Wasteland.LcmLeast | d08/src/main.rs:140 | the lcm divides every common multiple |
| Wasteland.StartNames | d08/src/main.rs:112-114 | each pushed start is a line's name ending in `A` |
| Wasteland.FoldCounters | d08/src/main.rs:133-141 | the fold only fails on a walk's own failure |
| Wasteland.PartTwo | d08/src/main.rs:90-142 | no start node exactly when the `reduce().unwrap()` panics |
| Wasteland.FoldIsLeastCommonMultiple | d08/src/main.rs:133-141 | every start's counter divides the result, and the result divides every common multiple of them |
| Wasteland.HandleGhosts | d08/src/main.rs:90-142 | `handle_ghosts` computes `PartTwo` |
| Wasteland.FirstExampleNetwork | d08/src/main.rs:173-179 | the map built from the first test input |
| Wasteland.FirstWalk | d08/src/main.rs:169-183 | `RL` from `AAA` reaches `ZZZ` in 2 steps |
| Wasteland.PartOneFirstExample | d08/src/main.rs:169-183 | the first test gives 2 |
| Wasteland.SecondExampleNetwork | d08/src/main.rs:190-192 | the map built from the second test input |
| Wasteland.SecondWalk | d08/src/main.rs:186-196 | `LLR` reaches `ZZZ` in 6 steps |
| Wasteland.PartOneSecondExample | d08/src/main.rs:186-196 | the second test gives 6 |
| Wasteland.GhostExampleNetwork | d08/src/main.rs:203-210 | the map built from the ghost test input |
| Wasteland.GhostExampleStarts | d08/src/main.rs:199-215 | the ghosts start at `11A` and `22A` |
| Wasteland.GhostWalks | d08/src/main.rs:199-215 | the ghosts need 2 and 3 steps; their lcm is 6 |
| Wasteland.PartTwoExample | d08/src/main.rs:199-215 | the ghost test gives 6 |
| Oasis.Diff | d09/src/main.rs:35-43 | a difference row is one shorter than its readings |
| Oasis.DiffAt | d09/src/main.rs:35-43 | `d[k] = v[k+1] - v[k]` |
| Oasis.Depth | d09/src/main.rs:32-46 | the loop runs at least one round |
| Oasis.DepthMeaning | d09/src/main.rs:32-46 | the loop completes exactly when some non-empty difference row is all zero; it stops at the first such row |
| Oasis.NextKeepsZeroRow | d09/src/main.rs:23-49 | the prediction is the one next reading that keeps the last difference row all zero |
| Oasis.Firsts | d09/src/main.rs:62-78 | the pushed first readings start with the row's own first reading |
| Oasis.FirstsFold | d09/src/main.rs:62-84 | folding the first readings with `e - acc` from the back gives the previous reading |
| Oasis.DiffReverse | d09/src/main.rs:35-43 | the differences of the reversed readings are the reversed differences, negated |
| Oasis.NextNegate | d09/src/main.rs:23-49 | negating the readings negates the prediction |
| Oasis.PrevIsNextOfReverse | d09/src/main.rs:55-85 | part two is part one on the reversed history |
| Oasis.PrevKeepsZeroRow | d09/src/main.rs:55-85 | the previous reading is the one that keeps the last difference row all zero when prepended |
| Oasis.Differences | d09/src/main.rs:35-43 | the `tuple_windows` pass returns the differences and whether they are all zero |
| Oasis.PredictNext | d09/src/main.rs:23-49 | `handle_part_1_line` computes `Next`; an empty line panics |
| Oasis.CollectFirsts | d09/src/main.rs:61-78 | the loop pushes `Firsts` |
| Oasis.FoldBack | d09/src/main.rs:80-84 | the reversed `reduce` computes `AltFold` |
| Oasis.PredictPrevious | d09/src/main.rs:55-85 | `handle_part_2_line` computes `Prev`; an empty line panics |
| Oasis.TotalOfThree | d09/src/main.rs:19-21 | the sum of three lines that succeed |
| Oasis.TotalSucceedsIffEveryLine | d09/src/main.rs:19-21 | the sum succeeds exactly when every line does |
| Oasis.TotalNoneStays | d09/src/main.rs:19-21 | a failing line fails the whole sum |
| Oasis.Handle | d09/src/main.rs:19-21 | `handle_part_1` and `handle_part_2` compute `Total` |
| Oasis.SingleReadingFails | d09/src/main.rs:45 | a single reading panics in the first round, in both parts (line 77 in part two) |
| Oasis.FirstHistory | d09/src/main.rs:93 | `0 3 6 9 12 15` extrapolates to 18 and -3 |
| Oasis.SecondHistory | d09/src/main.rs:94 | `1 3 6 10 15 21` extrapolates to 28 and 0 |
| Oasis.ThirdHistory | d09/src/main.rs:111 | `10 13 16 21 30 45` extrapolates to 68 and 5 |
| Oasis.ExampleTotals | d09/src/main.rs:91-107 | the tests' totals are 114 and 2 |
| PipeMaze.ShapeOf | d10/src/main.rs:69-79 | exactly `\|-LJ7F.S` have a tile; `S` is Start and `.` is Ground |
| PipeMaze.GlyphRoundTrip | d10/src/main.rs:69-79 | the table is a bijection between the eight characters and the eight shapes |
| PipeMaze.HeadingNorth | d10/src/main.rs:35-40 | true exactly for the shapes that open north |
| PipeMaze.HeadingSouth | d10/src/main.rs:42-47 | true exactly for the shapes that open south |
| PipeMaze.HeadingWest | d10/src/main.rs:49-54 | true exactly for the shapes that open west |
| PipeMaze.Targets | d10/src/main.rs:148-157 | a pipe sends the trace to the two distinct steps it opens; Start and Ground have none |
| PipeMaze.TargetsAreSteps | d10/src/main.rs:148-157 | every target is a step in an opened direction |
| PipeMaze.SwappedPairNotATarget | d10/src/main.rs:138 | the swapped `(column, row)` pair is never a target of the start, so both start neighbours are queued |
| PipeMaze.TrimStart | d10/src/main.rs:66 | `trim_start` drops exactly the leading whitespace |
| PipeMaze.ParseRow | d10/src/main.rs:67-79 | a row parses exactly when each character is in the table, and then tile by tile |
| PipeMaze.ParseGrid | d10/src/main.rs:62-96 | an unknown character is the only parse error; one row per line |
| PipeMaze.ParseGridRow | d10/src/main.rs:62-96 | row `i` of the grid is line `i` read through the table |
| PipeMaze.ParseGridFails | d10/src/main.rs:62-96 | one bad line fails the whole parse |
| PipeMaze.Starts | d10/src/main.rs:88-90 | the queued starts are exactly the `S` tiles, in row-major order |
| PipeMaze.StartNeighbours | d10/src/main.rs:102-116 | the unchecked `row[start_column]` panics exactly on a shorter row above or below; otherwise each flag says whether that neighbour connects back, and nothing wraps |
| PipeMaze.ResolveStart | d10/src/main.rs:118-134 | always a pipe; opens north exactly when north connects; SouthWest when neither north nor east does |
| PipeMaze.ResolveStartMatchesNeighbours | d10/src/main.rs:118-134 | with exactly two connecting neighbours, the inferred shape opens exactly towards them |
| PipeMaze.Unlabelled | d10/src/main.rs:81-86 | the parsed maze has the grid's shapes and no labels |
| PipeMaze.SetTile | d10/src/main.rs:136 | an in-place write changes one tile and nothing else |
| PipeMaze.Successors | d10/src/main.rs:158-161 | each pushed record is a target other than the arrived-from position, one step further, and arrived from the popped tile |
| PipeMaze.SuccessorsCover | d10/src/main.rs:158-161 | no target is dropped except the arrived-from one |
| PipeMaze.LabelFrame | d10/src/main.rs:166-167 | writing the value labels one unlabelled tile and changes nothing else |
| PipeMaze.TraceInvInit | d10/src/main.rs:136-138 | after the start is rewritten and queued, the trace invariant holds |
| PipeMaze.TraceInvDiscard | d10/src/main.rs:144-146 | discarding a record for a labelled tile keeps the invariant |
| PipeMaze.TraceInvLabel | d10/src/main.rs:148-169 | labelling a tile, queueing its successors and updating the maximum keep the invariant |
| PipeMaze.TraceInvDone | d10/src/main.rs:141-170 | an empty queue means the maze is traced |
| PipeMaze.StartLabelledZero | d10/src/main.rs:138 | only the start record can label the start, with 0 |
| PipeMaze.TraceLoop | d10/src/main.rs:57-172 | no `S` is the empty-queue `unwrap` panic; several `S` panic; otherwise the one start is resolved and its loop traced |
| PipeMaze.TraceFrom | d10/src/main.rs:141-170 | the FIFO loop either panics (off grid, or Start or Ground popped) or returns a traced maze whose maximum is its largest label |
| PipeMaze.WalkTo | d10/src/main.rs:141-170 | every labelled tile has a walk from the start of length label + 1 |
| PipeMaze.LabelHasWalk | d10/src/main.rs:141-170 | every label is the length of some walk from the start |
| PipeMaze.WalkBoundsLabel | d10/src/main.rs:141-170 | every tile a walk from the start reaches is labelled, with at most the walk's length |
| PipeMaze.NoShorterWalk | d10/src/main.rs:141-170 | no walk from the start is shorter than the label at its end |
| PipeMaze.LabelIsDistance | d10/src/main.rs:141-170 | the trace labels exactly the reachable tiles, each with its shortest distance from the start |
| PipeMaze.LabelBoundedAcross | d10/src/main.rs:141-170 | a tile labelled in one trace of a grid is labelled in any other, no higher |
| PipeMaze.TraceIsUnique | d10/src/main.rs:141-172 | any two traces of the same grid have the same labels and the same maximum |
| PipeMaze.MaxLabelDetermined | d10/src/main.rs:169 | the tracked maximum is determined by the labels |
| PipeMaze.Effective | d10/src/main.rs:190-194 | a tile without a value counts as Ground; a loop tile keeps its shape |
| PipeMaze.EffectiveRow | d10/src/main.rs:189-194 | the row the sweep sees, tile by tile |
| PipeMaze.TruncRem | d10/src/main.rs:198 | Rust's `%` on `i32`: the remainder lies strictly between `-b` and `b` and takes the sign of the dividend |
| PipeMaze.InsideIsTwoModFour | d10/src/main.rs:198-199 | `\|c % 4\| == 2` on the truncated remainder holds exactly when `c ≡ 2 (mod 4)` |
| PipeMaze.RowInterior | d10/src/main.rs:187-209 | a row panics exactly when it holds a Start |
| PipeMaze.Interior | d10/src/main.rs:186-210 | the sweep panics exactly when some row holds a Start |
| PipeMaze.SweepRow | d10/src/main.rs:187-209 | the counter loop over one row computes `RowInterior` |
| PipeMaze.CountEnclosed | d10/src/main.rs:181-213 | the nested loops compute `Interior`; they panic exactly when a traced tile is still Start |
| PipeMaze.RowInteriorStart | d10/src/main.rs:206 | a Start anywhere in a row panics |
| PipeMaze.RowBlocks | d10/src/main.rs:206 | a panicking row fails the whole sweep |
| PipeMaze.InteriorSnoc | d10/src/main.rs:186-210 | the count adds up row by row |
| PipeMaze.CounterTracksCrossings | d10/src/main.rs:196-208 | along a joined row, counter minus twice the crossings is 1 mod 4 inside a horizontal run and 0 mod 4 elsewhere |
| PipeMaze.CrossingRule | d10/src/main.rs:196-208 | at a Ground tile, the sweep's test holds exactly when an odd number of loop crossings lie to its left |
| PipeMaze.SweepIsCrossingParity | d10/src/main.rs:186-210 | on a joined row, the sweep counts exactly the tiles that crossing parity puts inside |
| PipeMaze.GroundRowEmpty | d10/src/main.rs:246-254 | a Ground row encloses nothing |
| PipeMaze.SquareTopRow | d10/src/main.rs:246-254 | the top edge of the square encloses nothing |
| PipeMaze.SquareMiddleRow | d10/src/main.rs:246-254 | the middle row encloses one tile |
| PipeMaze.SquareBottomRow | d10/src/main.rs:246-254 | the bottom edge of the square encloses nothing |
| PipeMaze.SquareLoopEnclosesOne | d10/src/main.rs:246-254 | the square loop test encloses 1 tile |
| PipeMaze.TracedHasNoStart | d10/src/main.rs:206 | a traced maze holds no labelled Start, so the part-2 sweep never panics |
| PipeMaze.TracedFromIsUnique | d10/src/main.rs:175-184 | both answers are determined by the maze text |
| PipeMaze.SameLabelsSameRows | d10/src/main.rs:184-194 | traces with the same labels give the sweep the same rows |
| PipeMazeSquare.ParseFive | d10/src/main.rs:62-79 | a five-character line whose characters are all in the table reads as their five shapes |
| PipeMazeSquare.ParseFiveLines | d10/src/main.rs:62-96 | five lines that each read as a row parse to the grid of those rows |
| PipeMazeSquare.SquareParses | d10/src/main.rs:223-231 | the square text parses to the square grid |
| PipeMazeSquare.SingleStart | d10/src/main.rs:88-90 | a grid with one `S` queues exactly that position |
| PipeMazeSquare.SquareStarts | d10/src/main.rs:88-90 | the square's only `S` is at row 1, column 1 |
| PipeMazeSquare.SquareStartResolves | d10/src/main.rs:102-134 | south and east connect to the start and north does not, so it becomes SouthEast |
| PipeMazeSquare.SquareCell | d10/src/main.rs:136-169 | the labelled tiles of the square's trace are its eight loop tiles, with their distances; only the start's shape changes |
| PipeMazeSquare.SquareEdgeTop | d10/src/main.rs:148-157 | every target of a top-row loop tile is a loop tile at most one step further |
| PipeMazeSquare.SquareEdgeBelow | d10/src/main.rs:148-157 | the same for the other loop tiles |
| PipeMazeSquare.SquareClosed | d10/src/main.rs:141-170 | the square's labelling is closed under the trace's edges |
| PipeMazeSquare.SquareParent | d10/src/main.rs:158-161 | each loop tile but the start is a target of a tile one step closer |
| PipeMazeSquare.SquareSupported | d10/src/main.rs:141-170 | every label but 0 is handed on by a neighbour |
| PipeMazeSquare.SquareMax | d10/src/main.rs:169 | the largest label is 4 |
| PipeMazeSquare.SquareZero | d10/src/main.rs:138 | the start, and only the start, carries 0 |
| PipeMazeSquare.SquareShapes | d10/src/main.rs:136 | every tile keeps its parsed shape but the start |
| PipeMazeSquare.SquarePipes | d10/src/main.rs:148-157 | only pipes are labelled |
| PipeMazeSquare.SquareLoopTraced | d10/src/main.rs:136-170 | the labelling above is a trace of the square from its start |
| PipeMazeSquare.SquareTracedFrom | d10/src/main.rs:223-231 | the square text has that trace |
| PipeMazeSquare.SquareEffectiveRows | d10/src/main.rs:184-194 | the rows the sweep sees in that trace are the square loop's rows |
| PipeMazeSquare.SquareTestAnswers | d10/src/main.rs:223-254 | every trace of the square text has maximum distance 4 and encloses 1 tile, the two tests' answers |
| PipeMaze.HandlePart1 | d10/src/main.rs:175-179 | a bad character or a missing start fails; otherwise the answer is the maximum distance of the trace |
| PipeMaze.HandlePart2 | d10/src/main.rs:181-213 | a bad character or a missing start fails; otherwise the answer is the enclosed count of the trace |
| CosmicExpansion.Utf8Width | d11/src/main.rs:28 | a character takes 1 to 4 bytes, and 1 exactly when it is ASCII |
| CosmicExpansion.ByteOffset | d11/src/main.rs:28 | the offset `char_indices` yields for character `k` is at least `k` |
| CosmicExpansion.AsciiOffsets | d11/src/main.rs:17-28 | byte offsets equal character positions exactly on a line of one-byte characters |
| CosmicExpansion.NoHashBeforeMeaning | d11/src/main.rs:28-32 | no `#` among the first `n` characters sits at byte offset `c` |
| CosmicExpansion.ColClearMeaning | d11/src/main.rs:27-35 | a column is clear exactly when no line has a `#` at that byte offset |
| CosmicExpansion.RowFlags | d11/src/main.rs:22-35 | `row_is_empty[i]` holds exactly when line `i` has no `#` |
| CosmicExpansion.ColFlags | d11/src/main.rs:17-35 | `col_is_empty` is as wide as the first line has characters; entry `c` holds exactly when the column is clear |
| CosmicExpansion.RowGalaxiesContents | d11/src/main.rs:28-33 | a line's galaxies are its `#` characters at their byte offsets, strictly left to right |
| CosmicExpansion.GalaxiesContents | d11/src/main.rs:27-35 | the galaxies are exactly the `#` characters of the grid, at their rows and byte offsets |
| CosmicExpansion.GalaxiesRowMajor | d11/src/main.rs:27-35 | the galaxies come strictly in row-major order |
| CosmicExpansion.ValidIffGalaxiesFit | d11/src/main.rs:16-32 | the scan does not panic exactly when there is a first line and every galaxy's byte offset is below its character count |
| CosmicExpansion.ColFlagsFromGalaxies | d11/src/main.rs:23-35 | a column is flagged empty exactly when no galaxy lies in it |
| CosmicExpansion.GalaxyLinesNotEmpty | d11/src/main.rs:29-32 | a galaxy's row and column are never flagged empty |
| CosmicExpansion.CountTrue | d11/src/main.rs:44-52 | the count of set flags in a span is at most its length |
| CosmicExpansion.DistSymmetric | d11/src/main.rs:38-42 | the order within a pair does not matter |
| CosmicExpansion.ExpandOneIsManhattan | d11/src/main.rs:54-55 | with `expand_size = 1` a pair's distance is the plain Manhattan distance |
| CosmicExpansion.NoEmptyLinesIsManhattan | d11/src/main.rs:54-55 | without empty lines the expansion plays no part |
| CosmicExpansion.DistAffine | d11/src/main.rs:54-55 | a pair's distance is affine in `expand_size` |
| CosmicExpansion.HalfOpenIsStrictlyBetween | d11/src/main.rs:44-52 | the half-open span `[min, max)` counts exactly the empty lines strictly between two galaxies |
| CosmicExpansion.PairSumAffine | d11/src/main.rs:37-56 | the answer is `B + expand_size * C` |
| CosmicExpansion.PairSumExpandOne | d11/src/main.rs:37-56 | with `expand_size = 1` the answer is `ManhattanSum`, the plain Manhattan distance summed over all pairs `i < j`, which is also the answer with no empty line |
| CosmicExpansion.ExpectedValuesConsistent | d11/src/main.rs:82-124 | any grid that gives 374 at 2 and 1030 at 10 gives 8410 at 100 |
| CosmicExpansion.ScanCell | d11/src/main.rs:28-33 | one character at byte offset `j`: a `#` is pushed and clears its row flag and flag `j`; a `#` with `j` beyond `col_is_empty` panics |
| CosmicExpansion.ScanLine | d11/src/main.rs:28-34 | one line, the offset advancing by each character's UTF-8 width: it panics exactly when some `#` has an offset beyond `col_is_empty`; otherwise the row flag, the column flags and the pushed galaxies |
| CosmicExpansion.ScanGrid | d11/src/main.rs:14-35 | the scan succeeds exactly when `Valid` (byte offsets against the first line's character count), and then yields `RowFlags`, `ColFlags` and `Galaxies` |
| CosmicExpansion.CountEmpty | d11/src/main.rs:44-52 | `filter().count()` over a slice counts its set flags |
| CosmicExpansion.AxisSpan | d11/src/main.rs:38-54 | sorted coordinates, the empty lines between them expanded |
| CosmicExpansion.PairDistance | d11/src/main.rs:37-55 | one pair's row span plus column span |
| CosmicExpansion.SumPairs | d11/src/main.rs:37-56 | the `tuple_combinations` loop computes `PairSum` |
| CosmicExpansion.Handle | d11/src/main.rs:14-59 | `None` exactly where the code panics, columns being byte offsets; otherwise the expanded pair sum over the galaxies in row-major order |
| CosmicExpansion.ExampleGalaxyList | d11/src/main.rs:69-80 | the test grid's nine galaxies in row-major order |
| CosmicExpansion.ExampleRowFlags | d11/src/main.rs:69-80 | rows 3 and 7 of the test grid are empty |
| CosmicExpansion.ExampleColFlags | d11/src/main.rs:69-80 | columns 2, 5 and 8 of the test grid are empty |
| CosmicExpansion.MultiByteShiftsColumn | d11/src/main.rs:17-32 | in the one-line grid `é#` the `#` sits at byte offset 2, past the two column flags, so the scan panics |
| CosmicExpansion.ExampleValid | d11/src/main.rs:69-80 | the test grid scans without a panic |

## Left out

- **Reading input.** File reading, embedded input, `println!` and
  `read_lines` (d01/src/main.rs:42-48) are I/O.
- **Tokenising.** The regex-driven tokenising of days 4 to 9 belongs to a
  regex library that is not part of this model. The model takes already
  parsed numbers, triples, hands, nodes and direction lists.
- **Day 1 total.** The sum over the lines in `main` (d01/src/main.rs:8-21) is
  left out. It is a plain sum of `Calibration` over lines read from a file,
  and lines that fail to read are skipped.
- **Machine integers.** Integers are unbounded. The model leaves out:
  - `u32`, `u64`, `usize` and `i64` overflow;
  - the day-5 `seed += jump` and `seed_start + seed_range` overflow;
  - the `i32` counter of the day-10 sweep.

  The `usize::MAX` sentinel of day 5 is kept as a constant. The day-6
  `u64` underflow at `total == 0` is modelled as `None`.
- **Hash iteration order.** `HashMap` and `HashSet` iteration order (days 4, 7
  and 8) is unspecified in Rust.
  - CamelCards.Order collects the counts in first-seen order instead.
  - The classification sorts those counts, but the model does not prove the
    type independent of that order.
- **Day-7 tests.** Of the fourteen hand-type assertions (d07/src/main.rs:179-196),
  only `T55J5` is proved, under both rules. The count patterns of all
  five-card hands are covered by CamelCards.FiveCardPatterns.
- **Day-10 tests.** The square tests of both parts (d10/src/main.rs:223-231
  and 246-254) are proved from their text by
  PipeMazeSquare.SquareTestAnswers. The part-2 tests expecting 4, 8 and 10
  and the commented-out edge-start test (d10/src/main.rs:233-241) are not
  evaluated.
- **Day-11 tests.** The 374, 1030 and 8410 tests (d11/src/main.rs:82, 104,
  124) are not evaluated on the grid. The model proves that they are
  consistent with one another, and the test grid's galaxies and flags.
- **Days 2, 3 and 12.**
  - d02 only echoes its input.
  - d03's adjacency test is defined by regex match positions.
  - d12 counts regex matches over a power set, and its part 2 is a stub.
  - These are not part of this model.
- **Library LCM.** `num::integer::lcm` (d08/src/main.rs:140) is a library call.
  Wasteland.Lcm is a local definition by gcd, with its properties proved.
- Wasteland.Counter: the source loops for ever when no End is reachable. The
  model bounds the walk by a `limit` parameter and reports `NoEndWithin`.
  Wasteland.CounterMeaning says exactly what that outcome means.
- Wasteland.FoldIsLeastCommonMultiple: the result is the lcm of the first-End
  counts. The model does not prove that this lcm is when all ghosts first
  stand on End together. That depends on the input's cycle structure, which
  the code assumes.
- CamelCards.TotalWinnings: the comparator's `unimplemented!` on a card
  outside the table (d07/src/main.rs:167) is not modelled as a panic. Which
  pairs a library sort compares, and so whether it ever meets that card, is
  not part of this model. With every card in the table nothing panics, and
  that case is modelled exactly. Otherwise the model orders a pair whose
  values cannot be compared as not greater.
- CamelCards.SortHands: the sort is proved ordered and a permutation, but
  not stable; Rust's `sort_by` is stable. Zip comparison is also not a total
  order on hands of different lengths (a prefix compares `Equal` to the
  longer hand), so the order of such hands is not determined by the
  comparator alone.
- PipeMaze.TraceFrom: its errors are named, but the exact inputs that raise
  each one are not characterised.
- PipeMaze.HandlePart1: errors other than a bad character or a missing start
  (several `S`, an off-grid step, Start or Ground popped) are stated only as
  some error.
- PipeMaze.HandlePart2: errors are stated as for PipeMaze.HandlePart1.
- Almanac.LowestIsLower: proved only for maps whose ranges do not overlap.
  With overlapping ranges the code's jump may skip a seed whose location is
  lower.
- Almanac.LowestIsAttained: proved under the same non-overlap assumption.

## Findings

| source | as written | input that shows it | evidently intended | confidence | as-written member | corrected member |
|---|---|---|---|---|---|---|
| d06/src/main.rs:36-53 | when no hold time beats the record, `min_ok_time` never moves from `total / 2`, and `total + 1 - 2*(max_nok_time + 1)` returns `1 + total % 2` for `total >= 2` | `total = 4`, `distance = 4`: the distances are 0, 3, 4, 3, 0, so nothing wins, yet the formula gives 1 | 0 ways to win, so the product over races is 0 | not executed | BoatRace.WaysToWinAsWritten, BoatRace.UnbeatableRace, BoatRace.RaceProduct, BoatRace.UnbeatableProduct | BoatRace.WaysToWin, BoatRace.CorrectedRaceProduct |
