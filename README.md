# Advent of Code 2023 solvers, modelled and verified in Dafny

This project models the puzzle solvers of the repository `advent-of-code-2023` (Rust, one `main.rs` per day). It covers days 1 to 5 and 7 to 18. Each day is one Dafny module in one file. Parsed puzzle input is passed in as sequences, grids or arrays. Printed answers are return values. Each solver follows the shape of its Rust code:
- a loop that updates variables becomes a `method` with a `while` or `for` loop and invariants;
- a grid or board changed in place becomes an `array2`, or an `array` for a flat table;
- an object with fields that change becomes a `class`;
- pure matches and recursion become functions.

The module `Common` (`common.dfy`) holds what several days share: the sum of a sequence of counts with its loop, and a few integer facts about products, quotients and remainders.

Every method is proved equal to a specification function, or is given the property the puzzle asks for. Lemmas then prove what the solver promises about that function.

| day | module | what is modelled |
|---|---|---|
| 1 | `Trebuchet` | calibration values from the first and last digit; the part 2 rewrite that copies digits and emits one digit per spelled word starting at each position |
| 2 | `CubeConundrum` | the per-reveal colour maxima, the possibility test against 12/13/14 cubes and the power of the minimal set |
| 3 | `GearRatios` | `extract_number` with its two scanning loops, the symbol and gear scans around a cell, and both sums |
| 4 | `Scratchcards` | the winning count, the doubling score and the in-place `card_count` accumulation |
| 5 | `SeedFertilizer` | mapping one value through the maps, the recursive interval search `get_range_lowest_location`, and both parts |
| 7 | `CamelCards` | card parsing and values, the `card_counts` sort, hand classification for both parts, the comparisons and the sort of hands |
| 8 | `HauntedWasteland` | the `reach_z` walk, Euclid's gcd and `lcm`, and the lcm fold over all starts |
| 9 | `MirageMaintenance` | the difference rows and both extrapolations |
| 10 | `PipeMaze` | tiles, `find_next_cells` (including the start's neighbour scan into two slots), `find_start`, loop following, erasure and the crossing-parity count |
| 11 | `CosmicExpansion` | galaxy collection, the in-place column and row expansion scans, and the sum of pairwise Manhattan distances |
| 12 | `HotSprings` | the row-by-row dynamic programme `count_arrangements`, checked against a reference count of arrangements, and the unfolding |
| 13 | `PointOfIncidence` | the horizontal and vertical reflection searches, scoring, and the flip-and-restore smudge search on a mutable pattern |
| 14 | `ParabolicDish` | the four in-place rolls, the north load and the cycle-index formula |
| 15 | `LensLibrary` | HASH, the 256 boxes with assignment and removal, and the focusing power |
| 16 | `LavaFloor` | the beam solver class with its stack, visited set and energised cells; mirrors and splitters; the part 2 maximum |
| 17 | `Crucible` | `find_min_heat`: Dijkstra over (cell, direction) with whole straight runs as edges. The cost table is an array updated in place and the heap is a multiset |
| 18 | `LavaductLagoon` | the shoelace-and-border area, the colour decoding, and the first edition's border drawing and flood fill |

The centrepiece is day 17. `Crucible.FindMinHeat` is proved to return the least heat loss over every legal walk to the bottom-right cell. A legal walk is a sequence of runs of `min_straight..max_straight` cells, each turning left or right from the last. The proof rests on the invariant of the search:
- every heap entry is the end of a recorded walk of its cost;
- every expanded key is fully relaxed;
- every reached key that has not yet been expanded still has its best cost in the heap.

Day 17's runs are `min_straight..max_straight` cells long, upper bound excluded. Part 1 passes (1, 4), so its runs have 1 to 3 cells; part 2 passes (4, 11), so its runs have 4 to 10 cells. A minimum above the maximum is not rejected: no run is then generated, so unless the grid is a single cell the heap runs empty and the search returns `None`.

## Model

| member | source | states |
|---|---|---|
| Trebuchet.DigitValue | day-1/src/main.rs:47 | a digit character stands for a value between 0 and 9 |
| Trebuchet.FirstDigitIndex | day-1/src/main.rs:41-42 | `find`: the index holds a digit and no earlier character is one |
| Trebuchet.LastDigitIndex | day-1/src/main.rs:44-45 | `rfind`: the index holds a digit and no later character is one |
| Trebuchet.CalibrationValue | day-1/src/main.rs:40-48 | the value is ten times the first digit plus the last digit, at most 99, and the two digits are the first and the last of the line |
| Trebuchet.SingleDigit | day-1/src/main.rs:40-48 | a line with a single digit d gives 11 * d |
| Trebuchet.SumValues | day-1/src/main.rs:14 | the sum of the lines' values is at most 99 per line |
| Trebuchet.SolvePart1 | day-1/src/main.rs:13-16 | part 1 sums the values, at most 99 per line and 0 for no lines |
| Trebuchet.WordDigit | day-1/src/main.rs:27 | the k-th spelled word stands for the digit k + 1 |
| Trebuchet.RewriteLine | day-1/src/main.rs:20-33 | the rewriting loop builds exactly the rewritten line: digits kept, one digit per spelled word starting at each other position |
| Trebuchet.EmitAt | day-1/src/main.rs:22-32 | one turn of the rewriting loop appends what that position contributes: the digit itself, or the digits of the words tried in order |
| Trebuchet.TruncatedWord | day-1/src/main.rs:28 | a word cut short by the end of the line (the `min` bound) never matches |
| Trebuchet.RewrittenPrefixDigits | day-1/src/main.rs:20-33 | the rewritten line holds digits only |
| Trebuchet.WordsAtBelow | day-1/src/main.rs:27-31 | the words tried at a position emit only their own digits, 1 to 9 |
| Trebuchet.WordsAtMatch | day-1/src/main.rs:27-31 | a word's digit is emitted at a position exactly when the word starts there |
| Trebuchet.EmittedAt | day-1/src/main.rs:22-32 | a digit position emits itself; any other position emits exactly the digits of the words starting there, at most nine |
| Trebuchet.WordsAtLength | day-1/src/main.rs:27-31 | a position emits at most one digit per word tried |
| Trebuchet.Twone | day-1/src/main.rs:20-33 | overlapping words both count: "twone" is rewritten to "21" |
| Trebuchet.TwoneAt | day-1/src/main.rs:22-32 | in "twone", "two" matches at 0 and "one" at 2, nothing elsewhere |
| Trebuchet.WordsAtNone | day-1/src/main.rs:27-31 | with no word starting at a position, nothing is emitted there |
| Trebuchet.WordsAtOnly | day-1/src/main.rs:27-31 | with one word starting at a position, exactly its digit is emitted |
| Trebuchet.RewrittenKeepsDigit | day-1/src/main.rs:23-24 | every digit of the line survives the rewrite, so a line with a digit still has one afterwards |
| Trebuchet.SolvePart2 | day-1/src/main.rs:18-38 | part 2 sums the values of the rewritten lines, at most 99 per line |
| Trebuchet.WordsAt | day-1/src/main.rs:27-31 | definition: the digits pushed for the first k words of the table that start at a position, in table order |
| Trebuchet.Emitted | day-1/src/main.rs:22-32 | definition: what one position adds to `line_replaced`: a digit itself, otherwise one digit per spelled word starting there |
| Trebuchet.Rewritten | day-1/src/main.rs:20-33 | definition: `line_replaced`, the contributions of every position of the line in order |
| CubeConundrum.ColorId | day-2/src/main.rs:64-69 | red is colour 0 and green colour 1, exactly; every other name is blue, colour 2 |
| CubeConundrum.RevealValues | day-2/src/main.rs:59-71 | parsing one reveal keeps, per colour, the largest count mentioned for it |
| CubeConundrum.MaxMentionedIsMax | day-2/src/main.rs:70 | the kept count bounds every count given for that colour and is one of them, or 0 |
| CubeConundrum.Possible | day-2/src/main.rs:32-39 | the early-exit loop says possible exactly when every reveal fits in 12 red, 13 green and 14 blue cubes |
| CubeConundrum.SolvePart1 | day-2/src/main.rs:30-48 | part 1 is the sum of the ids of the possible games |
| CubeConundrum.PossibleIdSumBound | day-2/src/main.rs:41-46 | the sum is at most the sum of all ids, equal to it when every game is possible and 0 when none is |
| CubeConundrum.MaxCubes | day-2/src/main.rs:17-23 | the loop leaves, per colour, the largest count over the game's reveals |
| CubeConundrum.MaxOfIsMax | day-2/src/main.rs:19-23 | that maximum bounds every reveal and is reached by one, or is 0 without reveals |
| CubeConundrum.PowerIsLeastBag | day-2/src/main.rs:17-25 | the power multiplies the smallest cube counts that make the game possible: any bag that fits every reveal holds at least these |
| CubeConundrum.LeastBound | day-2/src/main.rs:19-23 | a bound on one colour in every reveal bounds its maximum |
| CubeConundrum.SolvePart2 | day-2/src/main.rs:15-28 | part 2 is the sum of the games' powers |
| CubeConundrum.IsPossible | day-2/src/main.rs:32-40 | definition: every reveal has at most 12 red, 13 green and 14 blue cubes |
| CubeConundrum.PossibleIdSum | day-2/src/main.rs:31-46 | definition: the sum of the ids of the possible games, 0 for each impossible one |
| CubeConundrum.Power | day-2/src/main.rs:17-25 | definition: the product of the three per-colour maxima over the reveals |
| CubeConundrum.PowerSum | day-2/src/main.rs:16-26 | definition: the sum of the powers of the games |
| GearRatios.RunStart | day-3/src/main.rs:94-102 | the first loop stops at the start of the digit run: digits from there to the neighbour, and no digit just before |
| GearRatios.RunEnd | day-3/src/main.rs:104-112 | the second loop stops at the end of the digit run, never past the row's last column |
| GearRatios.ExtractNumber | day-3/src/main.rs:84-121 | the method with its two loops returns what `extract_number` is defined to return |
| GearRatios.ScanStart | day-3/src/main.rs:94-102 | the leftward loop stops at the start of the digit run through the neighbour |
| GearRatios.ScanEnd | day-3/src/main.rs:104-112 | the rightward loop stops at the end of the digit run, within the row |
| GearRatios.ExtractMeans | day-3/src/main.rs:84-121 | a number is found exactly when the neighbour is on the grid and a digit; it is then the value of the maximal digit run through it, with the column where the run ends |
| GearRatios.Values | day-3/src/main.rs:28 | the values pushed are the first components of the numbers found, in order |
| GearRatios.Scan | day-3/src/main.rs:20-36 | the nested `dy`/`dx` loops collect the numbers around a cell, row by row |
| GearRatios.ScanRow | day-3/src/main.rs:21-35 | the `dx` loop skips the cell itself and stops after a number that ends at or right of x |
| GearRatios.RowScanDistinct | day-3/src/main.rs:29-31 | within one neighbour row the numbers found end at strictly increasing columns, so no digit run is taken twice |
| GearRatios.RowScanAfter | day-3/src/main.rs:21-35 | in one neighbour row, a number found from `dx = k - 1` on ends at or right of x + k - 1 |
| GearRatios.AroundRows | day-3/src/main.rs:20-36 | the scan around a cell is the row above, then its own row, then the row below |
| GearRatios.AroundBound | day-3/src/main.rs:20-36 | at most six numbers are found around a cell |
| GearRatios.RowScanNoThird | day-3/src/main.rs:29-31 | at most two numbers are found in one neighbour row |
| Common.SumOf | day-3/src/main.rs:80 | the loop adds up a sequence of counts, as `iter().sum()` does here and at day-4/src/main.rs:26 |
| GearRatios.CellPart1 | day-3/src/main.rs:55-75 | a cell that is neither '.' nor a digit contributes the values of the numbers found around it, any other cell nothing |
| GearRatios.RowPart1 | day-3/src/main.rs:53-77 | one row of the part 1 loop collects the numbers around every symbol of the row |
| GearRatios.SolvePart1 | day-3/src/main.rs:49-82 | part 1 collects the numbers around every symbol (neither '.' nor a digit) in row-major order and sums them |
| GearRatios.CellPart2 | day-3/src/main.rs:15-40 | a '*' with exactly two numbers around it contributes their product, any other cell nothing |
| GearRatios.RowPart2 | day-3/src/main.rs:13-42 | one row of the part 2 loop collects the ratio of every '*' with exactly two numbers around it |
| GearRatios.SolvePart2 | day-3/src/main.rs:9-47 | part 2 collects, in row-major order, the product of the two numbers around each '*' that has exactly two, and sums them |
| GearRatios.IsSymbol | day-3/src/main.rs:55 | definition: a cell that is neither '.' nor a digit |
| GearRatios.Extract | day-3/src/main.rs:84-121 | definition: None for an off-grid or non-digit neighbour, otherwise the value and end column of the digit run through it |
| GearRatios.IsGear | day-3/src/main.rs:15 | definition: a cell holding '*' |
| Scratchcards.WinningCount | day-4/src/main.rs:14-19 | the loop counts the winning numbers, duplicates included, that occur among the card's numbers |
| Scratchcards.WinsBounds | day-4/src/main.rs:14-19 | a card wins at most once per winning number, exactly that often when all occur and never when none does |
| Scratchcards.ScoreDoubles | day-4/src/main.rs:37-42 | the first win scores 1 and each further win doubles the score |
| Scratchcards.SolvePart1 | day-4/src/main.rs:29-46 | part 1 adds up the cards' scores |
| Scratchcards.AddCopies | day-4/src/main.rs:21-23 | card j adds its count to each of the w following cards and leaves every other count alone |
| Scratchcards.ValidCards | day-4/src/main.rs:21-23 | definition: a card that wins copies has an id of at least 1 and its copies stay inside the table, the only inputs on which the indexing at line 22 cannot panic |
| Scratchcards.InOrder | day-4/src/main.rs:21-23 | definition: the ids are 1, 2, .. in list order, as in the puzzle input |
| Scratchcards.Counts | day-4/src/main.rs:11-24 | after k cards, one count per card; card k adds its own count, found at index `id - 1`, to the `wins` entries after that index |
| Scratchcards.CountsAtLeastOne | day-4/src/main.rs:11 | every card keeps at least its original copy, and counts only grow |
| Scratchcards.CountsSettle | day-4/src/main.rs:13-24 | with the ids in order, once card i is processed its count never changes again |
| Scratchcards.SumAtLeastLength | day-4/src/main.rs:26 | a sum of counts that are all at least 1 is at least their number |
| Scratchcards.SolvePart2 | day-4/src/main.rs:10-27 | on any list whose indexing cannot panic, the ids need not be in order, part 2 leaves the counts the card-by-card process defines; their sum is at least the number of cards |
| Scratchcards.RepeatedIds | day-4/src/main.rs:21-23 | two cards both numbered 1 that win nothing are accepted and held once each: the copies follow the id, not the position |
| Scratchcards.AddCopiesInPlace | day-4/src/main.rs:21-23 | the in-place loop on `card_count` does what AddCopies says |
| Scratchcards.Wins | day-4/src/main.rs:14-19 | definition: the number of entries of the winning numbers, duplicates included, that occur in the card's numbers |
| Scratchcards.Score | day-4/src/main.rs:37-42 | definition: 2^(wins - 1) for a card with wins, 0 otherwise |
| Scratchcards.TotalScore | day-4/src/main.rs:30-43 | definition: the sum of the card scores |
| SeedFertilizer.MapFrom | day-5/src/main.rs:61-66 | definition: the value after the entries from j on are tried in order, the first holding it shifting it |
| SeedFertilizer.LocationFrom | day-5/src/main.rs:59-67 | definition: the value after every map from idx on |
| SeedFertilizer.SkipEntries | day-5/src/main.rs:61-66 | entries that do not hold the value leave it alone: the first entry holding it decides, and with none the value is kept |
| SeedFertilizer.ApplyMap | day-5/src/main.rs:61-66 | the entry loop with its `break` maps the value through the first entry whose source range holds it, and keeps it otherwise |
| SeedFertilizer.SeedLocation | day-5/src/main.rs:59-67 | the seed's location is its value after every map in turn |
| SeedFertilizer.SolvePart1 | day-5/src/main.rs:55-73 | part 1 is the least location of any seed, u128::MAX when there are none |
| SeedFertilizer.Straddles | day-5/src/main.rs:114 | definition: the third branch's test on the range's end, `end > src + len` as written and `end >= src + len` corrected |
| SeedFertilizer.RangeLowest | day-5/src/main.rs:85-124 | definition: `get_range_lowest_location` with its three branches, the fall-through to the next entry and the next map, and the chosen straddle test |
| SeedFertilizer.IsMinOver | day-5/src/main.rs:85-124 | definition: m is the least location from map idx on of the values in [lo, hi] and the location of one of them |
| SeedFertilizer.ShiftMin | day-5/src/main.rs:94-97 | a range that one entry shifts uniformly has the least location of the shifted range |
| SeedFertilizer.UnionMin | day-5/src/main.rs:97-117 | the least location over two adjacent ranges is the smaller of their two least locations |
| SeedFertilizer.EntryShift | day-5/src/main.rs:94-96 | a range lying wholly in the first entry that holds its values moves by that entry's shift |
| SeedFertilizer.RangeLowestIsMin | day-5/src/main.rs:85-124 | the corrected range search returns the least location of any value in the range |
| SeedFertilizer.StartInside | day-5/src/main.rs:94-103 | when the range starts inside the entry, the part inside moves on to the next map and the rest is searched again |
| SeedFertilizer.EndInside | day-5/src/main.rs:104-112 | when only the end is inside the entry, that part moves on and the front part is searched again |
| SeedFertilizer.RangeLowestLocation | day-5/src/main.rs:85-124 | the corrected search's result is the least location over the range |
| SeedFertilizer.SingleSeed | day-5/src/main.rs:85-124 | on a one-value range the search, as written too, gives the part 1 location of that value |
| SeedFertilizer.StrictStraddleMissesEntry | day-5/src/main.rs:114 | as written, the range (4, 6) against the lone entry [0, 5, 1] gives 4, though 5 maps to 0 |
| SeedFertilizer.PairsLowest | day-5/src/main.rs:75-83 | definition: the running minimum from u128::MAX of the range search on (start, start + length - 1) over the first pairs, with either straddle test |
| SeedFertilizer.PairsLowestIsMin | day-5/src/main.rs:75-83 | with the corrected test, or when every range holds one seed, the running minimum is the least location of any seed in the ranges seen, or u128::MAX while there are none |
| SeedFertilizer.SolvePart2 | day-5/src/main.rs:75-83 | part 2 is the running minimum of the range search over the pairs, with the source's straddle test or the corrected one; with the corrected test, or single-seed ranges, it is the least location of any seed in the ranges (u128::MAX with no pairs) |
| SeedFertilizer.MapValue | day-5/src/main.rs:61-66 | definition: a value through one map, shifted by its first holding entry or kept |
| SeedFertilizer.Location | day-5/src/main.rs:59-67 | definition: a seed through every map in turn |
| CamelCards.Index | day-7/src/main.rs:6-20 | the discriminant `card as usize` is below 13 |
| CamelCards.AllCardsIndex | day-7/src/main.rs:41-57 | `Card::cards()` lists every card once, each at its own discriminant |
| CamelCards.ValueOrder | day-7/src/main.rs:59-65 | part 1 values follow the enum order; part 2 makes J weakest and keeps the order of the others; values tell cards apart |
| CamelCards.CountTriple | day-7/src/main.rs:157-160 | one, two or three different cards occur at most as often as the hand is long |
| CamelCards.CardCounts | day-7/src/main.rs:153-164 | one (count, card) pair per card, in enum order, counting the card's occurrences |
| CamelCards.CardCountsSum | day-7/src/main.rs:153-164 | the counts add up to the number of cards |
| CamelCards.Insert | day-7/src/main.rs:166 | inserting adds exactly one pair |
| CamelCards.InsertAscending | day-7/src/main.rs:166 | inserting into an ascending list keeps it ascending |
| CamelCards.SortAscending | day-7/src/main.rs:166 | `sort()` gives an ascending permutation in the tuple order (count, then card) |
| CamelCards.Reverse | day-7/src/main.rs:167 | `reverse()` gives the elements back to front, a permutation |
| CamelCards.SortedCounts | day-7/src/main.rs:153-167 | the sorted counts are a permutation of the 13 counts |
| CamelCards.InCounts | day-7/src/main.rs:153-164 | every pair of the counts is the count of its own card |
| CamelCards.CountsDistinct | day-7/src/main.rs:153-167 | two positions of the sorted counts hold different cards |
| CamelCards.TopCounts | day-7/src/main.rs:166-167 | after sorting and reversing, the first pair holds the largest count and the second the largest count of any other card |
| CamelCards.BelowTop | day-7/src/main.rs:166 | the last pair of the ascending counts bounds every count, and the one before it bounds every other card's count |
| CamelCards.CountBounds | day-7/src/main.rs:153-164 | counts of one, two or three different cards add up to at most the hand's length |
| CamelCards.TopPositive | day-7/src/main.rs:176 | the top count of a nonempty hand is at least 1 |
| CamelCards.Position | day-7/src/main.rs:199 | `position` finds the first pair holding the card asked for |
| CamelCards.HandTypeMeaning | day-7/src/main.rs:175-195 | five and four of a kind, full house and three of a kind hold exactly when the card counts say so |
| CamelCards.HandTypePairsMeaning | day-7/src/main.rs:175-195 | two pair, one pair and high card hold exactly when the card counts say so |
| CamelCards.HighOrAbove | day-7/src/main.rs:176-194 | the top two counts of a five-card hand take only the combinations the match lists |
| CamelCards.FullHouseIff | day-7/src/main.rs:179-182 | top counts 3 and 2 exactly when the hand is a full house |
| CamelCards.ThreeIff | day-7/src/main.rs:179-184 | top count 3 and second count not 2 exactly when three of a kind without a pair |
| CamelCards.TwoPairIff | day-7/src/main.rs:186-189 | top counts 2 and 2 exactly when two pair |
| CamelCards.OnePairIff | day-7/src/main.rs:186-191 | top count 2 and second not 2 exactly when one pair only |
| CamelCards.NoJokerSameType | day-7/src/main.rs:197-222 | without a J, the part 2 type is the part 1 type |
| CamelCards.NoJokerCounts | day-7/src/main.rs:199-203 | dropping a J pair that counts nothing does not change the classification |
| CamelCards.ParseHand | day-7/src/main.rs:142-173 | the cards are read one per character over a default of five N2, and both types are those of the cards |
| CamelCards.ReadCards | day-7/src/main.rs:149-151 | the reading loop converts each character, keeping N2 past the string's end |
| CamelCards.Values | day-7/src/main.rs:92-101 | each card is replaced by its value |
| CamelCards.LexCmpProps | day-7/src/main.rs:102 | `Vec::cmp` is reflexive and antisymmetric, and Equal only on equal lists |
| CamelCards.LexCmpTrans | day-7/src/main.rs:102 | `Vec::cmp` is transitive |
| CamelCards.CompareProps | day-7/src/main.rs:87-125 | comparing a hand with itself gives Equal, swapping the hands flips the result, and Equal means the same cards |
| CamelCards.CompareTrans | day-7/src/main.rs:87-125 | the hand comparison is transitive |
| CamelCards.InsertHand | day-7/src/main.rs:226 | inserting adds exactly one hand |
| CamelCards.InsertHandSorted | day-7/src/main.rs:226 | inserting into a sorted list keeps it sorted |
| CamelCards.CompareLessEqual | day-7/src/main.rs:87-125 | a hand below one of two Equal hands is below the other |
| CamelCards.SortHands | day-7/src/main.rs:226 | `sort_by` gives a permutation of the hands, sorted by the comparison |
| CamelCards.FromChar | day-7/src/main.rs:23-39 | definition: the card of each character in `from_char`, any other character reading as A |
| CamelCards.Value | day-7/src/main.rs:59-65 | definition: the card's entry in `card_values_p1` or `card_values_p2`, indexed by its discriminant |
| CamelCards.Rank | day-7/src/main.rs:67-76 | definition: the derived order of the hand types, in declaration order |
| CamelCards.Classify | day-7/src/main.rs:176-194 | definition: the match on the top count (5, 4, 3, 2, otherwise) and, for 3 and 2, on whether the second count is 2 |
| CamelCards.GetHandType | day-7/src/main.rs:175-195 | definition: `get_hand_type`, the classification of the first two sorted counts |
| CamelCards.GetHandTypeP2 | day-7/src/main.rs:197-222 | definition: `get_hand_type_p2`, the J count removed from the sorted counts and added to the top count before classifying |
| CamelCards.HandTypeOf | day-7/src/main.rs:153-170 | definition: the part 1 type of a hand's cards, from its sorted counts |
| CamelCards.HandTypeAltOf | day-7/src/main.rs:153-171 | definition: the part 2 type of a hand's cards, from its sorted counts |
| CamelCards.LexCmp | day-7/src/main.rs:102 | definition: `Vec::cmp`, the first differing value decides and a proper prefix comes first |
| CamelCards.Compare | day-7/src/main.rs:87-125 | definition: `compare_part_1` and `compare_part_2`, by hand type and then by the card values in order |
| CamelCards.Winnings | day-7/src/main.rs:228-232 | definition: (position + 1) * bid summed over the first n sorted hands |
| CamelCards.TieKey | day-7/src/main.rs:87-125 | definition: what an Equal comparison depends on, the rank of the type in use and the cards |
| CamelCards.EqualIffTie | day-7/src/main.rs:87-125 | two hands compare Equal exactly when their types in use and their cards agree |
| CamelCards.Ties | day-7/src/main.rs:226 | definition: the hands of a list with a given tie key, in their order |
| CamelCards.NoTies | day-7/src/main.rs:226 | a list of hands all above a hand holds none that ties with it |
| CamelCards.BelowAll | day-7/src/main.rs:226 | in a sorted list, a hand below the first hand is below every hand |
| CamelCards.InsertFrontTies | day-7/src/main.rs:226 | putting a hand in front of hands all above it adds it at the end of its tie class |
| CamelCards.InsertHandTies | day-7/src/main.rs:226 | inserting a hand into a sorted list adds it at the end of its tie class and changes no other class |
| CamelCards.SortHandsStable | day-7/src/main.rs:226 | `sort_by` is stable: every tie class of the sorted hands is the same class of the input, in the same order |
| CamelCards.StableSortOf | day-7/src/main.rs:226 | definition: a list sorted by the comparison that keeps every tie class of the input in order |
| CamelCards.FirstNotAbove | day-7/src/main.rs:226 | the first hand of a sorted list is not above any hand of it from another tie class |
| CamelCards.StableSortUnique | day-7/src/main.rs:226 | two sorted lists with the same tie classes in the same order are equal |
| CamelCards.StableSortsAgree | day-7/src/main.rs:226 | SortHands is a stable sort of the hands, and every stable sort of them equals it |
| CamelCards.TotalWinnings | day-7/src/main.rs:224-248 | both parts sum (position + 1) * bid over the hands sorted stably by the comparison in use, and every stable sort gives that sum |
| HauntedWasteland.Encode | day-8/src/main.rs:21 | one instruction per character of the line |
| HauntedWasteland.EncodeMeaning | day-8/src/main.rs:21 | every instruction is 0 or 1, 0 exactly for 'L'; with a closed node map the statement is valid |
| HauntedWasteland.Walk | day-8/src/main.rs:48-54 | every node the walk reaches is in the map |
| HauntedWasteland.FirstZUnique | day-8/src/main.rs:48 | the step count at which a walk first reaches a Z label is unique |
| HauntedWasteland.ModStep | day-8/src/main.rs:52 | the wrapping instruction index stays the step count modulo the number of instructions |
| HauntedWasteland.ReachZ | day-8/src/main.rs:43-57 | `reach_z` returns 0 for a Z start, and otherwise the first step count at which the walk reaches a Z label; None only when no Z label is reached within the fuel |
| HauntedWasteland.SolvePart1 | day-8/src/main.rs:59-62 | part 1 is the first step count at which the walk from AAA reaches a Z label |
| HauntedWasteland.Bezout | day-8/src/main.rs:93 | the gcd is an integer combination of the two numbers |
| HauntedWasteland.CommonDivisorOfMod | day-8/src/main.rs:93 | a common divisor of a and b divides a % b |
| HauntedWasteland.GcdIsGreatest | day-8/src/main.rs:93 | the gcd divides both numbers and every common divisor divides it |
| HauntedWasteland.LcmIsLeast | day-8/src/main.rs:92-94 | `first * second / gcd` is a positive common multiple that divides every positive common multiple |
| HauntedWasteland.LcmDividesMultiple | day-8/src/main.rs:92-94 | with a = g * a1, a common multiple of a and b is a multiple of a1 * b |
| HauntedWasteland.LcmFold | day-8/src/main.rs:77-81 | the fold of positive lengths is positive |
| HauntedWasteland.LcmFoldIsLeast | day-8/src/main.rs:77-81 | the fold is a multiple of every length and divides every positive common multiple |
| HauntedWasteland.SolvePart2 | day-8/src/main.rs:64-83 | part 2 is the lcm fold of the first Z step counts of the walks from every label ending in A |
| HauntedWasteland.FirstZ | day-8/src/main.rs:48-56 | definition: n steps of the walk reach a label ending in 'Z' and no fewer steps do |
| HauntedWasteland.Gcd | day-8/src/main.rs:93 | definition: Euclid's greatest common divisor, the number `first.gcd(second)` returns |
| HauntedWasteland.Lcm | day-8/src/main.rs:92-94 | definition: `first * second / gcd(first, second)` |
| MirageMaintenance.Diff | day-9/src/main.rs:34-41 | the difference row is one shorter than the row it comes from |
| MirageMaintenance.Rows | day-9/src/main.rs:19-44 | the down pass starts with the history and ends with an all-zero row |
| MirageMaintenance.RowsShape | day-9/src/main.rs:22-44 | every row before the last has a nonzero element and is followed by its difference row |
| MirageMaintenance.ExtrapolableRows | day-9/src/main.rs:47-50 | when the down pass reaches a nonempty all-zero row, every row has a last element |
| MirageMaintenance.DiffRow | day-9/src/main.rs:34-41 | the `sequence_new` loop computes the difference row |
| MirageMaintenance.IsAllZero | day-9/src/main.rs:24-32 | the stop condition holds exactly when every element is zero |
| MirageMaintenance.BuildRows | day-9/src/main.rs:19-44 | the down pass builds the rows of differences down to the first all-zero row |
| MirageMaintenance.RowsExtrapolate | day-9/src/main.rs:46-50 | the sum of the last elements of the rows is the recursive next-value extrapolation, and the bottom-up fold over their first elements is the previous-value extrapolation |
| MirageMaintenance.ShiftSums | day-9/src/main.rs:89-92 | both sums over the rows peel off the first row |
| MirageMaintenance.ShiftFrom | day-9/src/main.rs:89-92 | dropping the first row shifts both sums by one index |
| MirageMaintenance.ExtrapolateNext | day-9/src/main.rs:18-51 | part 1 for one history is its next-value extrapolation |
| MirageMaintenance.ExtrapolatePrev | day-9/src/main.rs:60-94 | part 2 for one history is its previous-value extrapolation |
| MirageMaintenance.ZeroHistory | day-9/src/main.rs:24-32 | an all-zero history is extrapolated to 0 both ways |
| MirageMaintenance.NextExtendsDiff | day-9/src/main.rs:46-50 | appending the next value appends the next value of the difference row to the differences, so the pattern is continued |
| MirageMaintenance.PrevIsNextOfReverse | day-9/src/main.rs:57-98 | extrapolating backwards is extrapolating the reversed history forwards |
| MirageMaintenance.Reverse | day-9/src/main.rs:57-98 | element i of the reversed row is element n-1-i |
| MirageMaintenance.Negate | day-9/src/main.rs:57-98 | every element negated |
| MirageMaintenance.ReverseZero | day-9/src/main.rs:24-32 | a reversed row is all-zero exactly when the row is |
| MirageMaintenance.DiffReverse | day-9/src/main.rs:34-41 | the differences of a reversed row are the negated reversed differences |
| MirageMaintenance.NegateExtrapolable | day-9/src/main.rs:15-98 | negating a history negates both extrapolations |
| MirageMaintenance.SolvePart1 | day-9/src/main.rs:15-55 | part 1 is the sum of the next values of all histories |
| MirageMaintenance.SolvePart2 | day-9/src/main.rs:57-98 | part 2 is the sum of the previous values of all histories |
| MirageMaintenance.Next | day-9/src/main.rs:18-51 | definition: the next reading, the last element plus the next reading of the differences, down to an all-zero row |
| MirageMaintenance.Prev | day-9/src/main.rs:60-94 | definition: the previous reading, the first element minus the previous reading of the differences, down to an all-zero row |
| PipeMaze.FromChar | day-10/src/main.rs:18-29 | parsing never yields an erased tile; it yields the start exactly for 'S' and ground exactly for characters that are not pipe letters |
| PipeMaze.FromCharToChar | day-10/src/main.rs:18-29 | every tile but `Erased` is read back from its own character |
| PipeMaze.PipeEnds | day-10/src/main.rs:37-44 | a tile has connections exactly when it is a pipe, and its two ends differ |
| PipeMaze.PipeEndsMeaning | day-10/src/main.rs:39-44 | each pipe's ends are orthogonal neighbours, north exactly for NS/NE/NW, south for NS/SW/SE, west for EW/NW/SW, east for EW/NE/SE |
| PipeMaze.PointsBackMeaning | day-10/src/main.rs:62-69 | the tests `next_tiles.0 == (y_current, x_current)` and `.1` are the offsets of a pipe pointing back |
| PipeMaze.StartConnectionsMeaning | day-10/src/main.rs:45-79 | the start's connections are the first two neighbours that point back, in scan order, and (0, 0) for each missing one; the two slots suffice exactly when at most two neighbours point back |
| PipeMaze.BacksMeaning | day-10/src/main.rs:59-70 | one neighbour is recorded exactly when it lies on the grid and points back |
| PipeMaze.ScanRowMeaning | day-10/src/main.rs:50-73 | the row of offsets records exactly the connecting neighbours in the columns already scanned |
| PipeMaze.ScanRowsMeaning | day-10/src/main.rs:49-74 | the rows of offsets record exactly the connecting neighbours in the rows already scanned |
| PipeMaze.ConnectingMeaning | day-10/src/main.rs:45-79 | the start records exactly the neighbours whose own connections point back to it, and every one of them is an orthogonal neighbour |
| PipeMaze.PutCollect | day-10/src/main.rs:63-68 | writing a cell into the next slot is collecting one more cell |
| PipeMaze.RowSlotsCollect | day-10/src/main.rs:50-73 | the slots after the inner offset loop hold the cells it recorded |
| PipeMaze.RowsSlotsCollect | day-10/src/main.rs:49-74 | the slots after both offset loops hold the cells recorded |
| PipeMaze.RowSlotsCount | day-10/src/main.rs:64-68 | the slot counter never decreases along a row |
| PipeMaze.RowsSlotsCount | day-10/src/main.rs:64-68 | the slot counter never decreases from row to row |
| PipeMaze.StartNext | day-10/src/main.rs:45-79 | on the only start of the grid, the imperative offset loops writing the `coords` array compute the start's connections |
| PipeMaze.RecordRow | day-10/src/main.rs:50-73 | the inner offset loop leaves the slots and the counter of the row's scan |
| PipeMaze.Record | day-10/src/main.rs:51-72 | one neighbour's visit leaves the slots and the counter of that step |
| PipeMaze.StartIn | day-10/src/main.rs:100 | `position` gives the first start in the row, or -1 when the row has none |
| PipeMaze.FirstStartFrom | day-10/src/main.rs:99-106 | the first start in row-major order from a given row |
| PipeMaze.FirstStart | day-10/src/main.rs:98-108 | the first start of the grid: a start tile with no start before it in row-major order |
| PipeMaze.FirstStartIsTheStart | day-10/src/main.rs:98-108 | with a single start, that start is the one found |
| PipeMaze.FindStart | day-10/src/main.rs:98-108 | `find_start` returns the first start of the grid |
| PipeMaze.Position | day-10/src/main.rs:100 | the `position` scan returns the first start of the row or -1 |
| PipeMaze.StartInUnique | day-10/src/main.rs:100 | a start with none before it is the one `position` finds |
| PipeMaze.StepMeaning | day-10/src/main.rs:118-128 | a step never returns to the previous cell, always goes to a connection of the current tile, and leaves a pipe tile for an orthogonal neighbour |
| PipeMaze.PrependPrepend | day-10/src/main.rs:131 | prefixing the traced pipe twice is prefixing once with both |
| PipeMaze.TraceIsPipe | day-10/src/main.rs:117-137 | each traced cell steps to the next, and the last one back onto the start |
| PipeMaze.TraceAvoidsStart | day-10/src/main.rs:130-136 | a traced loop does not pass the start before it closes and is no longer than the fuel |
| PipeMaze.FollowIsPipe | day-10/src/main.rs:110-141 | the pipe begins at the start, each step goes to a connection of the current cell other than the previous one, no later cell is the start, and the last cell steps back to the start |
| PipeMaze.StepAt | day-10/src/main.rs:118-128 | the imperative `find_next_cells` call and choice of the next cell compute one step |
| PipeMaze.SolvePart1 | day-10/src/main.rs:110-141 | part 1 follows the loop from the start and reports half its length |
| PipeMaze.ErasedTile | day-10/src/main.rs:149-151 | a pipe tile off the loop becomes erased; ground and loop tiles keep their tile |
| PipeMaze.StartTileConnects | day-10/src/main.rs:160-191 | for two distinct orthogonal neighbours of the start, the replacement tile connects the start to exactly those two cells |
| PipeMaze.FinalMap | day-10/src/main.rs:146-191 | the counted grid is the input with tiles off the pipe erased and the start replaced, and has the grid's shape |
| PipeMaze.ScanAppend | day-10/src/main.rs:206-234 | the crossing scan over a concatenation is the scan over the parts in turn |
| PipeMaze.ScanStep | day-10/src/main.rs:206-234 | extending the scanned stretch by one tile applies one crossing step |
| PipeMaze.ScanFlat | day-10/src/main.rs:208-210 | a run of horizontal pipes changes nothing |
| PipeMaze.CornerPairs | day-10/src/main.rs:209-230 | a vertical pipe, and a corner pair that leaves the row on opposite sides, count as one crossing; a pair that leaves on the same side counts none |
| PipeMaze.RowInside | day-10/src/main.rs:200-239 | no more cells are counted than are scanned |
| PipeMaze.PipeCellsNotInside | day-10/src/main.rs:201 | a cell of the loop is never counted as inside |
| PipeMaze.SolvePart2 | day-10/src/main.rs:143-244 | on a grid with a single start, the imperative part 2 over a two-dimensional array gives the number of inside cells of the final map, or panics exactly when the start's connections name no pipe |
| PipeMaze.PlaceStart | day-10/src/main.rs:183-191 | writing the start's pipe leaves the array equal to the final map |
| PipeMaze.EraseOffPipe | day-10/src/main.rs:146-153 | the erasing loops leave every cell as `ErasedTile` of its tile |
| PipeMaze.EraseRow | day-10/src/main.rs:148-152 | one row of the erasing loop erases that row and leaves the others |
| PipeMaze.CountInside | day-10/src/main.rs:197-241 | the counting loops return the number of inside cells of the grid |
| PipeMaze.CountRow | day-10/src/main.rs:200-240 | one row's count is the number of its inside cells |
| PipeMaze.CountCrossings | day-10/src/main.rs:203-234 | the inner scan returns the crossings to the right of the cell |
| PipeMaze.TileNext | day-10/src/main.rs:31-80 | definition: `find_next_cells` of a tile: the two ends of a pipe, the start's recorded neighbours, nothing for ground |
| PipeMaze.Follow | day-10/src/main.rs:110-141 | definition: the `pipe` list, the start followed by the cells reached by stepping on until the start comes back, within the fuel |
| PipeMaze.Cross | day-10/src/main.rs:207-233 | definition: one tile of the crossing scan: '|' counts, 'L'/'F' open a run along the pipe, '7'/'J' close it and count only when it leaves on the other side |
| PipeMaze.Inside | day-10/src/main.rs:201-238 | definition: a ground or erased cell with an odd number of crossings to its right |
| CosmicExpansion.AppendRowMajor | day-11/src/main.rs:20-26 | joining two row-major lists, all of whose first galaxies come before all of the second, is row-major |
| CosmicExpansion.RowGalaxiesMeaning | day-11/src/main.rs:21-25 | one row's galaxies are exactly its nonzero cells, in column order |
| CosmicExpansion.GridGalaxiesMeaning | day-11/src/main.rs:20-26 | the galaxies of the first rows are exactly their nonzero cells, in row-major order |
| CosmicExpansion.GalaxiesMeaning | day-11/src/main.rs:17-26 | the collected galaxies are exactly the nonzero cells of the image, in row-major order |
| CosmicExpansion.CollectGalaxies | day-11/src/main.rs:17-26 | the nested loops push the coordinates of the galaxies |
| CosmicExpansion.CountAt | day-11/src/main.rs:31 | `filter(..).count()` counts no more galaxies than there are |
| CosmicExpansion.CountAtZero | day-11/src/main.rs:31 | the count is zero exactly when no galaxy lies on the line |
| CosmicExpansion.CountAtSame | day-11/src/main.rs:31 | lists that agree on which galaxies lie on the two lines have equal counts |
| CosmicExpansion.EmptyBelowMono | day-11/src/main.rs:29-41 | the number of empty lines below grows with the bound |
| CosmicExpansion.EmptyBelowSplit | day-11/src/main.rs:29-41 | empty lines below `hi` split at `lo` |
| CosmicExpansion.StretchIsProduct | day-11/src/main.rs:87 | `n` widened empty lines add `n * e` |
| CosmicExpansion.StretchMono | day-11/src/main.rs:87 | more empty lines never add less |
| CosmicExpansion.StretchAdd | day-11/src/main.rs:87 | the extra lines of two runs add up |
| CosmicExpansion.Expanded | day-11/src/main.rs:28-56 | expanding one axis keeps the number of galaxies and leaves the other coordinate alone |
| CosmicExpansion.ExpandedBelow | day-11/src/main.rs:29-41 | the partly expanded list has every galaxy |
| CosmicExpansion.Shifted | day-11/src/main.rs:32-36 | one `for_each` pass keeps every galaxy |
| CosmicExpansion.MovedToOrder | day-11/src/main.rs:30-40 | a galaxy is on the scan line exactly when it was on the line being scanned, and beyond the scan line exactly when it was beyond that line |
| CosmicExpansion.ScanCount | day-11/src/main.rs:31 | when the scan reaches a line, the line holds as many galaxies as it did in the image |
| CosmicExpansion.ScanEmpty | day-11/src/main.rs:31-39 | widening an empty line moves exactly the galaxies beyond it by `e` |
| CosmicExpansion.ScanFull | day-11/src/main.rs:31-40 | a line holding a galaxy moves nothing |
| CosmicExpansion.ShiftBeyond | day-11/src/main.rs:32-36 | the loop moves the galaxies beyond the line by `e` and leaves the rest |
| CosmicExpansion.Expand | day-11/src/main.rs:81-109 | the `while` loop moves every galaxy by `e` per empty line before it, and the axis grows by `e` per empty line |
| CosmicExpansion.ScanDone | day-11/src/main.rs:29-41 | once the scan passed every line a galaxy lies on, every galaxy stands where the expansion puts it |
| CosmicExpansion.RowPairsPrefix | day-11/src/main.rs:60-64 | appending a galaxy leaves the distances among the earlier pairs alone |
| CosmicExpansion.PairsAppend | day-11/src/main.rs:60-64 | appending a galaxy adds its distance to each earlier galaxy |
| CosmicExpansion.PairsIsAllPairs | day-11/src/main.rs:59-64 | the nested loops' sum is the sum of the distances of all unordered pairs |
| CosmicExpansion.PairSum | day-11/src/main.rs:59-64 | the nested loops sum the Manhattan distances of all pairs i < j |
| CosmicExpansion.Solve | day-11/src/main.rs:16-120 | `solve_part_2`, and `solve_part_1` for an expansion of 1, gives the sum of the pair distances of the expanded galaxies |
| CosmicExpansion.ExpandedGap | day-11/src/main.rs:81-94 | expanding an axis stretches the gap between two galaxies along it by `e` for each empty line strictly between them |
| CosmicExpansion.GalaxyDistance | day-11/src/main.rs:69-120 | two galaxies' distance in the answer is their distance in the image plus `e` for each empty column and each empty row strictly between them |
| CosmicExpansion.GalaxiesNonNegative | day-11/src/main.rs:17-26 | galaxy coordinates are never negative |
| CosmicExpansion.ColumnsKeepRows | day-11/src/main.rs:81-109 | expanding the columns leaves the empty rows alone |
| CosmicExpansion.EmptyBetweenSame | day-11/src/main.rs:96-109 | lists with the same row counts have the same empty rows |
| CosmicExpansion.Dist | day-11/src/main.rs:59-64 | definition: the Manhattan distance of two galaxies |
| CosmicExpansion.ExpandedGalaxies | day-11/src/main.rs:82-109 | definition: the galaxies after the column expansion and then the row expansion |
| HotSprings.Ways | day-12/src/main.rs:46-82 | definition: the number of ways to replace each `?` by `.` or `#` so that the runs of `#`, left to right, have exactly the given lengths |
| HotSprings.Base | day-12/src/main.rs:51-56 | definition: the first table row, entry i for the first i springs with no run placed, with the source's initialisation or the corrected one |
| HotSprings.Chunk | day-12/src/main.rs:60-67 | definition: `chunk`, the length of the stretch of non-`.` springs ending at spring i |
| HotSprings.NextAt | day-12/src/main.rs:62-76 | definition: entry k of the next table row, from the previous row, as the inner loop computes it |
| HotSprings.WaysNoGroups | day-12/src/main.rs:46-82 | with no runs to place, a row has one arrangement when it holds no '#' and none otherwise |
| HotSprings.WaysDotEnd | day-12/src/main.rs:47 | a working spring at the end does not change the number of arrangements |
| HotSprings.GroupEndsDotFront | day-12/src/main.rs:47 | a working spring in front neither starts nor spoils a run at the end |
| HotSprings.WaysDotFront | day-12/src/main.rs:47 | a working spring in front does not change the number of arrangements |
| HotSprings.TrimEnd | day-12/src/main.rs:47 | `trim_end_matches('.')` is the longest prefix not ending in '.', and only '.' were dropped |
| HotSprings.WaysTrimEnd | day-12/src/main.rs:47 | trimming the trailing working springs keeps the arrangements |
| HotSprings.Working | day-12/src/main.rs:47-48 | the pattern `count_arrangements` works on starts with a working spring |
| HotSprings.WaysWorking | day-12/src/main.rs:47-48 | the rewritten pattern admits the same arrangements as the record |
| HotSprings.ChunkMeaning | day-12/src/main.rs:60-67 | `chunk` is at least `g` exactly when the last `g` springs up to i are not '.', and behind the leading '.' it never reaches past it |
| HotSprings.NextRow | day-12/src/main.rs:59-76 | the next row has one entry per prefix of the pattern |
| HotSprings.Rows | day-12/src/main.rs:58-79 | every row has one entry per prefix of the pattern |
| HotSprings.BaseWays | day-12/src/main.rs:51-56 | the corrected first row counts the arrangements of no run in each prefix |
| HotSprings.WaysLast | day-12/src/main.rs:69-75 | the last spring of a row is either working or ends the last run |
| HotSprings.GroupEndsChunk | day-12/src/main.rs:73 | behind the leading '.', a run of `g` can end at the last spring of a prefix exactly when `chunk >= group` and the spring before the run is not '#' |
| HotSprings.NextAtWays | day-12/src/main.rs:62-76 | when a row counts the arrangements of the runs `hs` in every prefix, the next entry counts those of `hs + [g]` |
| HotSprings.NextRowWays | day-12/src/main.rs:59-78 | one pass of the group loop turns the counts for `hs` into the counts for `hs + [g]` |
| HotSprings.RowsWays | day-12/src/main.rs:58-79 | from the corrected first row, the rows count the arrangements of the groups placed so far in each prefix |
| HotSprings.ArrangementsCorrect | day-12/src/main.rs:46-82 | with the corrected first row, `count_arrangements` is the number of arrangements of the record |
| HotSprings.NoGroups | day-12/src/main.rs:51-56 | with no groups the source counts 1 unless the last spring before the trailing '.'s is '#', while the intended count is 1 unless the row holds a '#' |
| HotSprings.BaseRowOvercounts | day-12/src/main.rs:54-56 | on "#?.?" with one run of 1 the source counts 2, the corrected programme 1, which is the number of arrangements |
| HotSprings.BaseRow | day-12/src/main.rs:51-56 | the imperative initialisation of `dp` builds the first row |
| HotSprings.NextRowOf | day-12/src/main.rs:59-78 | the inner loop over the pattern builds the next row for one group |
| HotSprings.CountArrangements | day-12/src/main.rs:46-82 | the imperative `count_arrangements` returns the last entry of the last row |
| HotSprings.TotalCorrect | day-12/src/main.rs:84-92 | with the corrected first row, the total is the sum of the records' arrangements |
| HotSprings.SolvePart1 | day-12/src/main.rs:84-92 | part 1 sums `count_arrangements` over the records |
| HotSprings.Repeat | day-12/src/main.rs:32 | `repeat(n)` is n times as long |
| HotSprings.Joined | day-12/src/main.rs:30-34 | n copies joined by '?' have n - 1 separators |
| HotSprings.Copies | day-12/src/main.rs:36-40 | n copies of the groups are n times as long |
| HotSprings.RepeatJoined | day-12/src/main.rs:31-34 | repeating `template + "?"` and dropping the last character joins the copies by '?' |
| HotSprings.Unfolded | day-12/src/main.rs:29-41 | the unfolded record has five copies of the template joined by four '?' and five copies of the groups |
| HotSprings.UnfoldedForm | day-12/src/main.rs:29-41 | the unfolded template is five copies joined by '?' and the unfolded groups are five copies, written out |
| HotSprings.Unfold | day-12/src/main.rs:30-40 | the loop body unfolds one record |
| HotSprings.SolvePart2 | day-12/src/main.rs:26-44 | part 2 is part 1 on the unfolded records |
| HotSprings.Arrangements | day-12/src/main.rs:46-82 | definition: the last entry of the last row of the dynamic programme, on the working pattern, with the first row as written or corrected |
| HotSprings.Total | day-12/src/main.rs:84-92 | definition: the sum of `count_arrangements` over the records |
| PointOfIncidence.HorizontalFrom | day-13/src/main.rs:12-27 | definition: the first line from s on, other than the previous one, above which the rows mirror |
| PointOfIncidence.Horizontal | day-13/src/main.rs:11-28 | definition: `find_horizontal_reflection`, the search from line 1 |
| PointOfIncidence.Vertical | day-13/src/main.rs:29-46 | definition: `find_vertical_reflection`, the same search over the columns |
| PointOfIncidence.Score | day-13/src/main.rs:76-83 | definition: a pattern's part-1 score, its vertical line or else 100 times its horizontal line; none when the source panics |
| PointOfIncidence.Hit | day-13/src/main.rs:106-126 | definition: flipping cell (y, x) gives a vertical or horizontal line other than the previous one |
| PointOfIncidence.SmudgeScore | day-13/src/main.rs:104-129 | definition: the score the first hit in row-major order adds, or 0 when no flip hits |
| PointOfIncidence.Score2 | day-13/src/main.rs:93-129 | definition: a pattern's part-2 score, the smudge score against its part-1 line; none when the source panics |
| PointOfIncidence.Total | day-13/src/main.rs:74-87 | definition: the sum of the part-1 scores |
| PointOfIncidence.HorizontalFromMeaning | day-13/src/main.rs:12-27 | the search from split s finds nothing exactly when no split from s on mirrors other than `previous`, and otherwise the first split from s on that mirrors and is not `previous` |
| PointOfIncidence.HorizontalMeaning | day-13/src/main.rs:11-28 | `find_horizontal_reflection` returns the smallest split in 1..height whose rows mirror and that is not `previous`, and None exactly when there is none |
| PointOfIncidence.Transpose | day-13/src/main.rs:29-46 | the columns as rows: as many rows as the pattern has columns, each as long as the pattern is high |
| PointOfIncidence.ColsMirrorTranspose | day-13/src/main.rs:31-39 | the columns mirror at a split exactly when the transposed rows do |
| PointOfIncidence.VerticalFromTranspose | day-13/src/main.rs:30-45 | the vertical search from a split is the horizontal search of the transposed pattern |
| PointOfIncidence.VerticalIsHorizontalOfColumns | day-13/src/main.rs:29-46 | `find_vertical_reflection` is `find_horizontal_reflection` on the columns |
| PointOfIncidence.VerticalMeaning | day-13/src/main.rs:29-46 | `find_vertical_reflection` returns the smallest split in 1..width whose columns mirror and that is not `previous`, and None exactly when there is none |
| PointOfIncidence.ScoreMeaning | day-13/src/main.rs:76-83 | a pattern's part-1 score is a mirroring column split, or 100 times a mirroring row split when no column split mirrors |
| PointOfIncidence.ScoreUndefined | day-13/src/main.rs:81-83 | the source panics exactly when neither a column split nor a row split mirrors |
| PointOfIncidence.Flip | day-13/src/main.rs:106-111 | flipping a cell keeps the pattern's shape |
| PointOfIncidence.FlipUndone | day-13/src/main.rs:127 | writing the saved cell back undoes the flip |
| PointOfIncidence.FlipChangesOneCell | day-13/src/main.rs:106-111 | a flip changes exactly the one cell, from '#' to '.' and otherwise to '#' |
| PointOfIncidence.FirstSmudge | day-13/src/main.rs:104-129 | the smudge found lies on the pattern |
| PointOfIncidence.FirstSmudgeNone | day-13/src/main.rs:104-129 | the search from a cell finds nothing exactly when no later cell's flip yields a new reflection |
| PointOfIncidence.FirstSmudgeSome | day-13/src/main.rs:104-129 | the search from a cell finds a cell whose flip yields a new reflection, with no such cell between |
| PointOfIncidence.SmudgeMeaning | day-13/src/main.rs:104-129 | the smudge is the first cell in row-major order whose flip yields a reflection other than the part-1 one, and None exactly when there is no such cell |
| PointOfIncidence.Score2Defined | day-13/src/main.rs:93-101 | part 2 panics for exactly the patterns part 1 panics for |
| PointOfIncidence.Pattern.constructor | day-13/src/main.rs:103 | the mutable copy holds exactly the pattern's cells |
| PointOfIncidence.Pattern.Cells | day-13/src/main.rs:3-8 | the pattern's array as a grid of `height` rows of `width` cells |
| PointOfIncidence.Pattern.RowsMatch | day-13/src/main.rs:13-21 | the inner loops for one split report exactly whether the rows mirror |
| PointOfIncidence.Pattern.ColsMatch | day-13/src/main.rs:31-39 | the inner loops for one split report exactly whether the columns mirror |
| PointOfIncidence.Pattern.FindHorizontal | day-13/src/main.rs:11-28 | the imperative `find_horizontal_reflection` returns the horizontal search's result |
| PointOfIncidence.Pattern.FindVertical | day-13/src/main.rs:29-46 | the imperative `find_vertical_reflection` returns the vertical search's result |
| PointOfIncidence.Pattern.SetCell | day-13/src/main.rs:108-127 | a write changes exactly that cell |
| PointOfIncidence.Pattern.TryCell | day-13/src/main.rs:106-127 | one step of the smudge loop keeps the flip and returns its new columns plus 100 times its new rows exactly when it yields a new reflection, and otherwise restores the pattern |
| PointOfIncidence.Pattern.SmudgeRow | day-13/src/main.rs:105-128 | the `for x` loop over row y either stops at the first cell of the row whose flip yields a new reflection, leaving it flipped and adding its score, or restores the row and finds no such cell in it |
| PointOfIncidence.Pattern.Smudge | day-13/src/main.rs:103-129 | the smudge loop adds the score of the first flip that yields a new reflection and leaves the pattern flipped there |
| PointOfIncidence.SolvePart1 | day-13/src/main.rs:74-87 | part 1 sums the patterns' part-1 scores |
| PointOfIncidence.SolvePart2 | day-13/src/main.rs:89-133 | part 2 sums the smudge scores, each searched past the pattern's part-1 reflection |
| PointOfIncidence.RowsMirror | day-13/src/main.rs:13-21 | definition: the rows s-1-k and s+k are equal for every k short of the nearer edge |
| PointOfIncidence.ColsMirror | day-13/src/main.rs:31-39 | definition: the columns s-1-k and s+k are equal for every k short of the nearer edge |
| PointOfIncidence.Total2 | day-13/src/main.rs:89-133 | definition: the sum of the part-2 scores |
| ParabolicDish.Cells | day-14/src/main.rs:147-152 | the board array read as a grid of its rows |
| ParabolicDish.Movable | day-14/src/main.rs:80 | definition: the cell holds 'O' and the cell beside it in the roll's direction is in bounds and holds '.', the test of every pass |
| ParabolicDish.Settled | day-14/src/main.rs:86-88 | definition: no cell is movable, the board a pass that moves nothing leaves |
| ParabolicDish.Set | day-14/src/main.rs:81-82 | one write keeps the board's shape |
| ParabolicDish.Moved | day-14/src/main.rs:80-84 | one move keeps the board's shape |
| ParabolicDish.RocksFixed | day-14/src/main.rs:80-84 | definition: the dimensions stay, an 'O' or '.' cell stays one of the two, every other cell is unchanged |
| ParabolicDish.Column | day-14/src/main.rs:78-86 | a column has one cell per row |
| ParabolicDish.SegmentsKept | day-14/src/main.rs:80-84 | definition: along a line, the number of 'O' before every cube rock and in all is unchanged, so no round rock crosses a '#' |
| ParabolicDish.LineKept | day-14/src/main.rs:80-84 | definition: a line keeps its multiset of cells and the round rocks of each stretch between cube rocks |
| ParabolicDish.Keeps | day-14/src/main.rs:75-91 | definition: what a roll keeps, the rocks fixed and every column (north, south) or row (west, east) kept in that sense |
| ParabolicDish.KeepsTrans | day-14/src/main.rs:76-90 | what passes keep composes over several passes |
| ParabolicDish.SwapSegments | day-14/src/main.rs:81-82 | swapping an 'O' with the '.' next to it keeps the round rocks before every fixed cell of the line |
| ParabolicDish.MovedColumn | day-14/src/main.rs:80-84 | a north or south move keeps every column's contents and the round rocks of each of its stretches |
| ParabolicDish.MovedRow | day-14/src/main.rs:116-120 | a west or east move keeps every row's contents and the round rocks of each of its stretches |
| ParabolicDish.MovedKeeps | day-14/src/main.rs:80-84 | a move swaps an 'O' with the '.' beside it: cube rocks stay and every line along the roll keeps its contents and the round rocks of each stretch |
| ParabolicDish.Packed | day-14/src/main.rs:80 | definition: along a line, no 'O' has a '.' directly before it (towards the start) or directly after it (towards the end) |
| ParabolicDish.PackedLineUnique | day-14/src/main.rs:75-91 | two lines packed the same way that keep the same fixed cells and stretch counts are equal |
| ParabolicDish.SettledColumn | day-14/src/main.rs:75-109 | a board settled north (south) has every column packed towards its top (bottom) |
| ParabolicDish.SettledRow | day-14/src/main.rs:111-145 | a board settled west (east) has every row packed towards its left (right) end |
| ParabolicDish.SettledUnique | day-14/src/main.rs:75-145 | what a roll promises determines its result: two boards settled in one direction that keep the same start in that direction are equal |
| ParabolicDish.NoCrossing | day-14/src/main.rs:80-84 | the column '.', '#', 'O' cannot become 'O', '#', '.': a round rock never crosses a cube rock |
| ParabolicDish.TargetWeight | day-14/src/main.rs:80-84 | the rolled rock is one step closer to the edge it rolls towards |
| ParabolicDish.Potential | day-14/src/main.rs:76-90 | definition: the sum over round rocks of the cells each could still roll in the direction, the measure the passes of a roll lower |
| ParabolicDish.RowPotentialSet | day-14/src/main.rs:81-82 | writing one cell of a row changes its weight by that cell's bonus alone |
| ParabolicDish.PotentialSet | day-14/src/main.rs:81-82 | writing one cell of the board changes its weight by that cell's bonus alone |
| ParabolicDish.MovedPotential | day-14/src/main.rs:76-90 | every move lowers the board's total weight by one, so the passes of a roll end |
| ParabolicDish.MoveRock | day-14/src/main.rs:81-82 | the two writes of a move leave the moved board |
| ParabolicDish.Visit | day-14/src/main.rs:80-84 | one loop step keeps the pass's progress, and a pass that has not moved yet leaves behind cells that could not move |
| ParabolicDish.PassNorth | day-14/src/main.rs:77-86 | a north pass keeps the rocks, every column's contents and the round rocks of each stretch between cube rocks; a pass that moves nothing leaves the board settled north |
| ParabolicDish.PassSouth | day-14/src/main.rs:95-104 | a south pass keeps the rocks, every column's contents and the round rocks of each stretch; a pass that moves nothing leaves the board settled south |
| ParabolicDish.PassWest | day-14/src/main.rs:113-122 | a west pass keeps the rocks, every row's contents and the round rocks of each stretch; a pass that moves nothing leaves the board settled west |
| ParabolicDish.PassEast | day-14/src/main.rs:131-140 | an east pass keeps the rocks, every row's contents and the round rocks of each stretch; a pass that moves nothing leaves the board settled east |
| ParabolicDish.RollNorth | day-14/src/main.rs:75-91 | `roll_north` ends settled north with the cube rocks in place, every column's contents kept and the round rocks of each stretch kept, which by SettledUnique is exactly one board; a settled board is left alone |
| ParabolicDish.RollSouth | day-14/src/main.rs:93-109 | `roll_south` ends settled south keeping the rocks, columns and stretch counts, the one board SettledUnique allows; a settled board is left alone |
| ParabolicDish.RollWest | day-14/src/main.rs:111-127 | `roll_west` ends settled west keeping the rocks, rows and stretch counts, the one board SettledUnique allows; a settled board is left alone |
| ParabolicDish.RollEast | day-14/src/main.rs:129-145 | `roll_east` ends settled east keeping the rocks, rows and stretch counts, the one board SettledUnique allows; a settled board is left alone |
| ParabolicDish.Cycle | day-14/src/main.rs:36-39 | a spin cycle rolls north, west, south and east, each roll ending settled and keeping what the previous one left, so every step is the one board SettledUnique allows; the cube rocks stay, and a board settled in all four directions is its fixed point |
| ParabolicDish.CountRound | day-14/src/main.rs:26 | definition: the number of 'O' in a row, the `filter(..).count()` |
| ParabolicDish.CountRoundMultiset | day-14/src/main.rs:26 | the `filter(..).count()` of a row is the number of 'O' in it |
| ParabolicDish.LoadRows | day-14/src/main.rs:23-27 | definition: the sum over the first n rows of (height - i) times the round rocks of row i |
| ParabolicDish.Load | day-14/src/main.rs:23-27 | definition: the load of all rows |
| ParabolicDish.RowPotentialSouth | day-14/src/main.rs:26 | a row's southward weight is its distance to the south edge times its round rocks |
| ParabolicDish.LoadIsSouthDistance | day-14/src/main.rs:23-27 | the load counts for each round rock its distance to the south edge plus one |
| ParabolicDish.CountRow | day-14/src/main.rs:26 | the count loop returns the round rocks of the row |
| ParabolicDish.LoadOf | day-14/src/main.rs:23-27 | the load loop returns the board's load, row i weighing height - i per round rock |
| ParabolicDish.SolvePart1 | day-14/src/main.rs:16-29 | part 1 is the load shared by every board settled north that keeps the input's rocks, columns and stretch counts, and such a board exists |
| ParabolicDish.Iterate | day-14/src/main.rs:36-49 | definition: the state after n applications of the cycle |
| ParabolicDish.TargetIndex | day-14/src/main.rs:53 | definition: `j_start + (1000000000 - 1 - j_start) % (i + 1 - j_start)`, the stored index read back |
| ParabolicDish.Periodic | day-14/src/main.rs:51-53 | once the state repeats after period p, it repeats from every later index |
| ParabolicDish.Reduce | day-14/src/main.rs:53 | the state at a late index is the state at the start index plus the offset's remainder by the period |
| ParabolicDish.BillionthCycle | day-14/src/main.rs:41-65 | the index the source reads back holds the board after the billionth spin cycle |
| ParabolicDish.IterateShift | day-14/src/main.rs:36-49 | iterating from the first cycle's board is iterating one more time from the input |
| LensLibrary.SumHashes | day-15/src/main.rs:16 | definition: the sum of the HASH of every step |
| LensLibrary.Put | day-15/src/main.rs:26-33 | definition: `label=N` on a box, replacing the first lens of that label in place or appending a new one |
| LensLibrary.Take | day-15/src/main.rs:36-41 | definition: `label-` on a box, dropping the first lens of that label if there is one |
| LensLibrary.BoxPower | day-15/src/main.rs:47-49 | definition: the focusing power of the first n lenses of box k |
| LensLibrary.TotalPower | day-15/src/main.rs:45-50 | definition: the focusing power of all boxes |
| LensLibrary.Hash | day-15/src/main.rs:4-14 | HASH is below 256 |
| LensLibrary.HashEmpty | day-15/src/main.rs:5 | the empty string hashes to 0 |
| LensLibrary.HashAppend | day-15/src/main.rs:7-11 | one more character adds its code, multiplies by 17 and keeps the low 8 bits |
| LensLibrary.HashOf | day-15/src/main.rs:4-14 | the imperative `hash` loop computes HASH |
| LensLibrary.SumHashesBound | day-15/src/main.rs:16 | each step adds at most 255 to part 1 |
| LensLibrary.SolvePart1 | day-15/src/main.rs:15-17 | part 1 is the sum of the steps' hashes |
| LensLibrary.Parse | day-15/src/main.rs:23-25 | on a well-formed (ASCII) step, a step is a removal exactly when it ends in '-', naming the label before it; otherwise it names the label before the last two characters and the focal length of its last digit |
| LensLibrary.Position | day-15/src/main.rs:26-28 | `position` finds the first slot holding the label, and None exactly when no slot does |
| LensLibrary.Apply | day-15/src/main.rs:22-43 | a step leaves 256 boxes |
| LensLibrary.Run | day-15/src/main.rs:22-43 | the whole sequence leaves 256 boxes |
| LensLibrary.PutMeaning | day-15/src/main.rs:26-33 | `label=N` replaces the focal length of a lens with that label in its slot, and otherwise appends the lens at the back |
| LensLibrary.TakeMeaning | day-15/src/main.rs:36-41 | `label-` removes the lens with that label and keeps the others in order, and leaves a box without it alone |
| LensLibrary.ApplyTouchesOneBox | day-15/src/main.rs:24-40 | a step touches only the box its label hashes to |
| LensLibrary.PutPlaced | day-15/src/main.rs:26-33 | an assignment keeps every lens in its box and every label at most once |
| LensLibrary.TakePlaced | day-15/src/main.rs:36-41 | a removal keeps the box placed and leaves no lens with that label |
| LensLibrary.ApplyPlaced | day-15/src/main.rs:22-43 | every step keeps each lens in the box its label hashes to and each label at most once; a removal leaves no lens with its label |
| LensLibrary.RunPlaced | day-15/src/main.rs:22-43 | the whole sequence keeps the boxes placed |
| LensLibrary.BoxPowerPrefix | day-15/src/main.rs:47-49 | appending a lens leaves the power of the lenses before it |
| LensLibrary.BoxPowerAppend | day-15/src/main.rs:47-49 | a lens appended to box k adds (k + 1) times its slot times its focal length |
| LensLibrary.PowerOtherBoxes | day-15/src/main.rs:46-50 | replacing one box changes the power by that box's share alone |
| LensLibrary.BoxPowerOf | day-15/src/main.rs:47-49 | the inner loop over one box sums (box + 1) * (slot + 1) * focal length over its lenses |
| LensLibrary.FocusingPower | day-15/src/main.rs:45-50 | the power loops sum (box + 1) * (slot + 1) * focal length over every lens |
| LensLibrary.Step | day-15/src/main.rs:23-42 | one step on the boxes in place applies the parsed step |
| LensLibrary.RunAll | day-15/src/main.rs:22-43 | the step loop on the boxes in place applies the whole sequence |
| LensLibrary.SolvePart2 | day-15/src/main.rs:19-52 | part 2 is the focusing power of 256 empty boxes after the sequence, whose every lens is in its label's box |
| LensLibrary.WellFormed | day-15/src/main.rs:23-25 | definition: a step the source indexes without panicking: ASCII, non-empty, and for `label=N` at least two characters with N no smaller than '0' |
| LensLibrary.NonAsciiRefused | day-15/src/main.rs:23 | a step with a character outside ASCII, whose byte length is not its character count, is not well formed |
| LensLibrary.Placed | day-15/src/main.rs:26-33 | definition: 256 boxes, every lens in the box its label hashes to, no label twice in a box |
| LensLibrary.Power | day-15/src/main.rs:46-50 | definition: the focusing power of the first n boxes |
| LavaFloor.Next | day-16/src/main.rs:105-142 | definition: the one or two states a beam moves to from its cell, those that stay on the grid |
| LavaFloor.Reachable | day-16/src/main.rs:93-100 | definition: a state is reachable when a chain of moves leads to it from the entry state |
| LavaFloor.Energy | day-16/src/main.rs:84-103 | definition: the number of cells some reachable state lies on |
| LavaFloor.Solver.constructor | day-16/src/main.rs:184-187 | the solver starts on the statement with an empty beam stack |
| LavaFloor.FromChar | day-16/src/main.rs:162-168 | a character is empty floor exactly when it is not one of `/`, `\`, `-`, `\|` |
| LavaFloor.Deflect | day-16/src/main.rs:106-141 | a beam leaves a cell in one or two directions |
| LavaFloor.DeflectMeaning | day-16/src/main.rs:106-141 | a beam keeps its direction exactly on empty floor and on a splitter parallel to it, and never turns back |
| LavaFloor.MirrorReversible | day-16/src/main.rs:113-124 | a mirror turns a beam a quarter turn, and a beam sent back the way it came leaves the way the first one entered |
| LavaFloor.SplitterMeaning | day-16/src/main.rs:125-140 | a splitter sends beams only along its own axis, and splits a perpendicular beam into two opposite ones |
| LavaFloor.ReachStart | day-16/src/main.rs:88 | the entry state is reachable |
| LavaFloor.ReachStep | day-16/src/main.rs:98 | a state pushed by a reachable state is reachable |
| LavaFloor.Extend | day-16/src/main.rs:98 | a path followed by a state its last state pushes is a path |
| LavaFloor.PathInside | day-16/src/main.rs:93-100 | a closed set holds the end of every path from the entry |
| LavaFloor.ClosedHoldsReachable | day-16/src/main.rs:93-100 | a closed set holds every reachable state |
| LavaFloor.CellIndex | day-16/src/main.rs:97 | the index `y * width + x` of an on-grid cell is on the array, and gives back its row and column |
| LavaFloor.CellOf | day-16/src/main.rs:97 | each array index is the index of an on-grid cell |
| LavaFloor.CodeInjective | day-16/src/main.rs:90-91 | distinct on-grid states have distinct codes |
| LavaFloor.CodeRange | day-16/src/main.rs:90-91 | the code of an on-grid state is below 4 * width * height |
| LavaFloor.StatesBound | day-16/src/main.rs:90-94 | at most 4 * width * height distinct on-grid states exist, which bounds the expansions |
| LavaFloor.CountTrue | day-16/src/main.rs:102 | no more flags are true than there are flags |
| LavaFloor.ReachedOf | day-16/src/main.rs:97 | a reachable state reaches its cell |
| LavaFloor.EnergyUpTo | day-16/src/main.rs:102 | no more cells are energized among the first n than n |
| LavaFloor.EnergyUpToPositive | day-16/src/main.rs:102 | an energized cell among the first n makes the count positive |
| LavaFloor.EnergyBounds | day-16/src/main.rs:84-103 | the entry cell is energized, and no more cells are energized than the grid has |
| LavaFloor.CountFlags | day-16/src/main.rs:102 | counting flags that mirror the energized cells counts the energized cells |
| LavaFloor.SeenOf | day-16/src/main.rs:97 | an expanded state's cell is lit |
| LavaFloor.LightsAdd | day-16/src/main.rs:95-97 | marking the popped state's cell keeps the flags in step with the expanded set |
| LavaFloor.PopSeen | day-16/src/main.rs:93-94 | popping a state already expanded keeps the stack sound and pending |
| LavaFloor.PopMembers | day-16/src/main.rs:93 | a stack's members are those below the top and the top |
| LavaFloor.PopNewSound | day-16/src/main.rs:93-99 | expanding a new state keeps only reachable on-grid states stacked and expanded |
| LavaFloor.PushedReachable | day-16/src/main.rs:98 | the states a reachable state pushes are on the grid and reachable |
| LavaFloor.PopNewPending | day-16/src/main.rs:93-99 | expanding a new state keeps every state pushed by an expanded one expanded or stacked |
| LavaFloor.Solver.AddToHeap | day-16/src/main.rs:144-152 | `add_to_heap` pushes the beam exactly when it is on the grid |
| LavaFloor.Solver.MoveBeam | day-16/src/main.rs:105-142 | `move_beam` pushes the on-grid beams the cell sends the beam on as, in the source's order |
| LavaFloor.Solver.SendBeam | day-16/src/main.rs:84-103 | `send_beam` returns the number of cells some state reachable from the entry lies on, after expanding at most 4 * width * height states, and leaves the stack empty |
| LavaFloor.Solver.Expand | day-16/src/main.rs:94-99 | expanding a new state adds it to the set, marks its cell and keeps the stack sound and pending |
| LavaFloor.Solver.SolvePart1 | day-16/src/main.rs:75-83 | part 1 is the energy of the beam entering at the top-left corner heading right |
| LavaFloor.Solver.SolvePart2 | day-16/src/main.rs:39-73 | part 2 is the largest energy over the entries from every edge cell heading inwards, and it is at least part 1 |
| LavaFloor.Solver.Consider | day-16/src/main.rs:43-48 | one entry sends its beam and keeps the maximum |
| LavaFloor.ColumnStep | day-16/src/main.rs:42-55 | the column entries before x + 1 are those before x and the two of column x |
| LavaFloor.RowStep | day-16/src/main.rs:57-70 | the row entries before y + 1 are those before y and the two of row y |
| LavaFloor.Finished | day-16/src/main.rs:93-102 | when the stack is empty, the lit cells count the energy |
| LavaFloor.Expanded | day-16/src/main.rs:93-102 | when the stack is empty, each flag says exactly whether its cell is energized |
| LavaFloor.SeenReachable | day-16/src/main.rs:93-100 | in a closed set of reachable states, a cell is lit exactly when a reachable state lies on it |
| LavaFloor.VisitedReachable | day-16/src/main.rs:93-100 | a closed set of reachable states holds exactly the reachable states |
| Crucible.RowStartIsProduct | day-17/src/main.rs:125 | the cells of the first y rows number y * w |
| Crucible.RowStartMono | day-17/src/main.rs:125 | every cell of a row comes before every cell of a later row |
| Crucible.Index | day-17/src/main.rs:125 | the slot `y*w*4 + x*4 + direction` of a valid key lies in the table, and the four first slots belong to the top-left cell |
| Crucible.SlotOf | day-17/src/main.rs:167-169 | the slot the source computes for a new state is the key's slot |
| Crucible.IndexInjective | day-17/src/main.rs:125 | distinct valid keys use distinct slots |
| Crucible.TableIsLarge | day-17/src/main.rs:111-117 | the table has `w*h*4` slots, at least the four the source zeroes, and eight once the grid has more than one cell |
| Crucible.OffsetIsDirection | day-17/src/main.rs:134-135 | a run of d cells moves by `DIRECTION[dir_new]` times d |
| Crucible.RunInGrid | day-17/src/main.rs:137-141 | every cell of a run whose ends lie in the grid lies in the grid |
| Crucible.TurnRule | day-17/src/main.rs:129-132 | the start state may go in every direction; after a run the crucible must turn left or right |
| Crucible.After | day-17/src/main.rs:159-165 | a legal move ends at a valid key heading the move's direction |
| Crucible.Walk | day-17/src/main.rs:120-174 | a walk of legal moves ends in the grid, at a valid key once it has moved, and the empty walk is the start |
| Crucible.WalkSnoc | day-17/src/main.rs:133-170 | a legal move extends a walk by its end and its heat loss |
| Crucible.OneCell | day-17/src/main.rs:121-123 | the empty walk reaches the goal exactly on a one-cell grid |
| Crucible.StepBound | day-17/src/main.rs:129-173 | a legal move from a settled key ends at a key whose best known cost is at most the move's total |
| Crucible.FrontierBound | day-17/src/main.rs:120-174 | along every walk, the key reached is settled no dearer than the walk, or an earlier key of the walk has a dearer-or-equal heap entry |
| Crucible.GoalBound | day-17/src/main.rs:120-123 | a least-cost heap entry costs no more than any walk to the goal |
| Crucible.GoalPopped | day-17/src/main.rs:120-123 | a least-cost heap entry at the goal ends a walk to the goal, and no walk to the goal costs less |
| Crucible.EmptyBound | day-17/src/main.rs:176 | with the heap empty, every walk to the goal costs at least usize::MAX |
| Crucible.InitInv | day-17/src/main.rs:111-118 | the table after the four zero writes with the start pushed satisfies the search invariant |
| Crucible.HasMin | day-17/src/main.rs:120 | a non-empty heap has an entry of least cost |
| Crucible.SumUpdate | day-17/src/main.rs:169 | writing one slot changes the table's sum by the difference |
| Crucible.PopStale | day-17/src/main.rs:125-127 | skipping an entry dearer than its slot keeps the invariant |
| Crucible.PopExpand | day-17/src/main.rs:120-129 | popping a least-cost entry off the goal that is not stale starts its expansion |
| Crucible.Progress | day-17/src/main.rs:129-133 | skipping a direction the turn rule forbids keeps the invariant |
| Crucible.Finish | day-17/src/main.rs:129-173 | after the four directions the expanded key is fully relaxed |
| Crucible.RelaxKeep | day-17/src/main.rs:137-171 | a run that improves no slot moves the progress point on by one |
| Crucible.SlotUpdate | day-17/src/main.rs:169 | writing a smaller cost into a slot leaves every other key's slot and lowers no one else |
| Crucible.RelaxedMono | day-17/src/main.rs:167-170 | lowering slots keeps the runs already relaxed relaxed |
| Crucible.ImproveHeap | day-17/src/main.rs:167-170 | pushing the improved state keeps every heap entry the end of a recorded walk of its cost |
| Crucible.ImproveTracked | day-17/src/main.rs:167-170 | after an improvement every reached key not yet expanded still has its best cost in the heap |
| Crucible.ImproveDone | day-17/src/main.rs:167-170 | an improvement keeps the expanded keys' bounds |
| Crucible.RelaxImprove | day-17/src/main.rs:167-170 | recording a strictly smaller cost for the end of a run keeps the expansion's invariant |
| Crucible.Axis | day-17/src/main.rs:146-157 | exactly one offset of each direction is non-zero |
| Crucible.ColumnHeat | day-17/src/main.rs:146-151 | the `dy` loop adds the heat of the cells 1..d of a vertical run to the cost |
| Crucible.RowHeat | day-17/src/main.rs:152-157 | the `dx` loop adds the heat of the cells 1..d of a horizontal run to the cost |
| Crucible.RunHeat | day-17/src/main.rs:145-157 | the cost loops add the heat of the cells 1..d of the run to the state's cost |
| Crucible.Push | day-17/src/main.rs:167-170 | a strictly cheaper run pushes its end, records its cost and lowers the table's sum |
| Crucible.Relax | day-17/src/main.rs:133-172 | one pass of the `d` loop keeps the invariant and either lowers the table's sum or changes nothing |
| Crucible.Expand | day-17/src/main.rs:129-173 | the `dir_new` and `d` loops relax every run from the popped state |
| Crucible.SearchStep | day-17/src/main.rs:120-173 | one turn of the pop loop either returns the least heat loss of any walk to the goal, or keeps the search invariant and lowers the table's sum or shrinks the heap |
| Crucible.FindMinHeat | day-17/src/main.rs:105-177 | `find_min_heat` returns the least heat loss of any legal walk to the bottom-right cell; None only when every such walk costs at least usize::MAX |
| Crucible.SolvePart1 | day-17/src/main.rs:71-86 | part 1 is the least heat loss with runs of 1 to 3 cells |
| Crucible.SolvePart2 | day-17/src/main.rs:88-103 | part 2 is the least heat loss with runs of 4 to 10 cells |
| Crucible.RunCost | day-17/src/main.rs:145-157 | definition: the heat of the cells 1 to d steps along the run, the start cell not charged |
| Crucible.Legal | day-17/src/main.rs:129-141 | definition: a run that turns from the last direction, has `min_straight <= d < max_straight` and ends in the grid |
| LavaductLagoon.End | day-18/src/main.rs:67-73 | definition: the corner reached after the instructions, starting from (0, 0) |
| LavaductLagoon.Border | day-18/src/main.rs:74 | definition: the sum of the distances, the border length |
| LavaductLagoon.Shoelace | day-18/src/main.rs:76 | definition: the sum of the cross products of consecutive corners |
| LavaductLagoon.Lagoon | day-18/src/main.rs:61-82 | definition: half the shoelace sum (as written, or its absolute value) plus half the border plus 1 |
| LavaductLagoon.Decoded | day-18/src/main.rs:48-55 | definition: the instruction the colour encodes, direction from the low hex digit and distance from the rest |
| LavaductLagoon.Flooded | day-18/src/main.rs:133-150 | definition: an open cell the frame reaches through open cells |
| LavaductLagoon.FirstEditionArea | day-18/src/main.rs:91-160 | definition: the cells of the drawn map below its size that the flood does not reach |
| LavaductLagoon.Shift | day-18/src/main.rs:68-73 | Up and Down move only the row, by -n and +n; Left and Right move only the column, by -n and +n |
| LavaductLagoon.ShiftAdds | day-18/src/main.rs:98-104 | two moves in the same direction add up, and a move of n covers a distance of \|n\| |
| LavaductLagoon.Half | day-18/src/main.rs:81 | Rust's `/ 2`, rounding toward zero for negative sums too |
| LavaductLagoon.ComputeArea | day-18/src/main.rs:61-82 | `compute_area` returns half the shoelace sum of the corners, plus half the border length, plus 1 |
| LavaductLagoon.SolvePart1 | day-18/src/main.rs:41-43 | part 1 is `compute_area` on the given instructions |
| LavaductLagoon.DecodeDirection | day-18/src/main.rs:49-54 | the low hex digit of the colour gives Right for 0, Down for 1, Left for 2 and Up for anything higher |
| LavaductLagoon.DecodeEncode | day-18/src/main.rs:49-55 | a colour `n * 16 + code(d)` decodes to an instruction of direction d and distance n |
| LavaductLagoon.DecodedIdempotent | day-18/src/main.rs:48-56 | decoding twice is decoding once, gives a non-negative distance and keeps the colour |
| LavaductLagoon.DecodeAll | day-18/src/main.rs:47-56 | decoding keeps the number of instructions |
| LavaductLagoon.SolvePart2 | day-18/src/main.rs:45-59 | part 2 is `compute_area` on the decoded instructions |
| LavaductLagoon.PrefixEnd | day-18/src/main.rs:68-74 | one more instruction moves the end by its distance and lengthens the border by it |
| LavaductLagoon.PrefixShoelace | day-18/src/main.rs:76 | one more instruction adds the cross product of the two corners |
| LavaductLagoon.RectangleCorners | day-18/src/main.rs:67-79 | the w by h rectangle visits its four corners and has a border of 2w + 2h |
| LavaductLagoon.RectangleShoelace | day-18/src/main.rs:76 | the rectangle's shoelace sum is twice its area, positive clockwise and negative anticlockwise |
| LavaductLagoon.CornerCross | day-18/src/main.rs:76 | the cross products of the rectangle's consecutive corners |
| LavaductLagoon.RectangleLagoon | day-18/src/main.rs:61-82 | with the orientation-free area, a w by h rectangle gives (w + 1)(h + 1) dug cells either way round |
| LavaductLagoon.RectangleAsWritten | day-18/src/main.rs:81 | as written, the clockwise rectangle gives (w + 1)(h + 1) but the anticlockwise one w + h + 1 - wh |
| LavaductLagoon.AnticlockwiseSquare | day-18/src/main.rs:81 | as written, R 2, U 2, L 2, D 2 gives 1, while the lagoon has 9 cells |
| LavaductLagoon.Mirror | day-18/src/main.rs:68-73 | mirroring keeps the number of instructions |
| LavaductLagoon.MirrorEnd | day-18/src/main.rs:67-79 | mirroring up and down negates the end's row and the shoelace sum and keeps the border |
| LavaductLagoon.CrossMirror | day-18/src/main.rs:76 | mirroring both corners negates their cross product |
| LavaductLagoon.MirrorLagoon | day-18/src/main.rs:61-82 | the orientation-free answer does not change under mirroring, while the as-written one drops whenever the shoelace sum exceeds 1 |
| LavaductLagoon.BorderIsWalk | day-18/src/main.rs:74 | with non-negative distances, the border length is the number of unit steps walked |
| LavaductLagoon.Segment | day-18/src/main.rs:98-105 | one instruction digs as many cells as its distance, none for a negative one |
| LavaductLagoon.SegmentCells | day-18/src/main.rs:98-105 | cell k of an instruction's run is k + 1 unit steps from its start |
| LavaductLagoon.Trace | day-18/src/main.rs:92-111 | the dug border holds at least the origin |
| LavaductLagoon.ShiftAdjacent | day-18/src/main.rs:98-104 | consecutive unit steps are orthogonal neighbours |
| LavaductLagoon.TraceWalk | day-18/src/main.rs:94-111 | the first edition's border starts at the origin, ends where the digger stands, and each cell is a neighbour of the one before |
| LavaductLagoon.EditionsAgree | day-18/src/main.rs:61-111 | with non-negative distances, both editions end at the same place, and the first edition's border has the second's border length plus one cells |
| LavaductLagoon.BoxOf | day-18/src/main.rs:95 | the bounding box starts as the origin |
| LavaductLagoon.BoxHolds | day-18/src/main.rs:106-109 | the bounding box holds every border cell |
| LavaductLagoon.BoxLeast | day-18/src/main.rs:106-109 | the bounding box is the least box holding the origin and every border cell |
| LavaductLagoon.DigBorder | day-18/src/main.rs:92-111 | the imperative border walk pushes the trace and keeps its bounding box |
| LavaductLagoon.DigStep | day-18/src/main.rs:105-109 | one unit step extends the dug run by a cell and widens the box to hold it |
| LavaductLagoon.DigLine | day-18/src/main.rs:98-110 | the inner loop digs one instruction's run, moves the digger to its end and keeps the box |
| LavaductLagoon.IndexBelow | day-18/src/main.rs:119 | the index `y * width + x` of an on-map cell is on the map |
| LavaductLagoon.RowStartIs | day-18/src/main.rs:119 | the first index of row y is y * width |
| LavaductLagoon.Idx | day-18/src/main.rs:134 | an on-map cell's index is on the map |
| LavaductLagoon.CellIndex | day-18/src/main.rs:134 | an index gives back its cell |
| LavaductLagoon.IndexCell | day-18/src/main.rs:153-157 | every map index is the index of an on-map cell |
| LavaductLagoon.DrawnMap | day-18/src/main.rs:114-120 | the drawn map has width * height cells, with the box widened by one on each side |
| LavaductLagoon.DrawStep | day-18/src/main.rs:119 | a border cell lands on the map, at the index the source computes, and only that index stands for it |
| LavaductLagoon.DrawBorder | day-18/src/main.rs:118-120 | the draw loop marks 1 exactly the cells of the border |
| LavaductLagoon.MovesInGrid | day-18/src/main.rs:137-148 | every cell the fill pushes is on the map and a neighbour |
| LavaductLagoon.MoveInGrid | day-18/src/main.rs:137-148 | a pushed cell is on the map |
| LavaductLagoon.TouchFrame | day-18/src/main.rs:123-131 | every frame cell is pushed |
| LavaductLagoon.Prolong | day-18/src/main.rs:137-148 | a fill path whose last, open cell pushes t goes on to t |
| LavaductLagoon.Extend | day-18/src/main.rs:137-148 | appending a cell the last open cell pushes keeps a fill path |
| LavaductLagoon.TouchStep | day-18/src/main.rs:134-148 | an open pushed cell pushes only pushed cells |
| LavaductLagoon.ZerosFill | day-18/src/main.rs:135 | marking a 0 cell leaves one 0 fewer, so the fill ends |
| LavaductLagoon.FillSound | day-18/src/main.rs:134-148 | marking an open popped cell and pushing its moves keeps only pushed cells stacked and marks only open pushed cells |
| LavaductLagoon.FillPending | day-18/src/main.rs:134-148 | marking an open popped cell and pushing its moves keeps every marked cell's pushes marked or stacked |
| LavaductLagoon.PopKept | day-18/src/main.rs:133-134 | popping a cell that is not 0 keeps the invariants |
| LavaductLagoon.FillInside | day-18/src/main.rs:133-150 | once the stack is empty, no cell of a fill path is still 0 |
| LavaductLagoon.FloodComplete | day-18/src/main.rs:133-150 | once the stack is empty, a cell is 2 exactly when it is open and reached from the frame |
| LavaductLagoon.MarkedFlooded | day-18/src/main.rs:135 | a cell marked 2 is open and reached from the frame |
| LavaductLagoon.FloodedMarked | day-18/src/main.rs:133-150 | once the stack is empty, a cell open and reached from the frame is marked 2 |
| LavaductLagoon.Fill | day-18/src/main.rs:135-148 | marking a cell 2 and pushing its moves changes only that cell of the map |
| LavaductLagoon.PushMoves | day-18/src/main.rs:137-148 | the four guarded pushes push the cell's moves in order |
| LavaductLagoon.FillAt | day-18/src/main.rs:134-149 | filling an open popped cell keeps the invariants and leaves one 0 fewer |
| LavaductLagoon.Visit | day-18/src/main.rs:133-149 | one pop keeps the invariants and either leaves fewer 0s or shrinks the stack |
| LavaductLagoon.Flood | day-18/src/main.rs:133-150 | the flood marks 2 exactly the open cells reached from the frame, and changes no other cell |
| LavaductLagoon.FrameSeeds | day-18/src/main.rs:123-131 | the seeds are exactly the frame cells |
| LavaductLagoon.Unflooded | day-18/src/main.rs:153-159 | no more cells below n are unflooded than n |
| LavaductLagoon.Ones | day-18/src/main.rs:159 | no more 1s than cells |
| LavaductLagoon.CountOnes | day-18/src/main.rs:153-159 | when the 1s are exactly the unflooded cells, counting the 1s counts them |
| LavaductLagoon.DrawnBinary | day-18/src/main.rs:116-120 | the drawn map holds only 0s and 1s |
| LavaductLagoon.SolvePart1FirstEdition | day-18/src/main.rs:91-160 | the first edition counts the cells of the map the fill does not reach from the frame |
| LavaductLagoon.Cross | day-18/src/main.rs:76 | definition: the shoelace term `prev.x * cur.y - prev.y * cur.x` |
| LavaductLagoon.Moves | day-18/src/main.rs:137-148 | definition: the cells the fill pushes, in order: up if y > 0, down if y < height - 2, left if x > 0, right if x < width - 2 |

## Left out

- Day 6 is not part of this model: it works entirely in floating point (`sqrt`, `ceil`, `floor` of quadratic roots).
- Reading standard input, parsing (`str::parse`, `split`, `from_str_radix` apart from the day 18 nibble split) and `println!`: the parsed values are parameters and the printed numbers are results. `Instant` timing is left out.
- Fixed-width integers (`usize`, `isize`, `u128`, `u8`) are unbounded `int`/`nat` here, with non-negativity stated where the code relies on it. Overflow is not modelled. Day 15's `&= 0xFF` becomes `% 256`, which agrees on non-negative values.
- The unicode `is_numeric` of days 1 and 3 is taken as the ASCII digit test.
- `unwrap()` and `panic!` paths become `requires` clauses. Examples: the line has a digit (day 1), the labels are in the node map (day 8), the history reaches a zero row (day 9), every step is ASCII so that its byte and character positions agree (day 15), each pattern has a reflection (day 13). Day 10 and day 13 also model the panic with a `Result`/`Option` outcome where the panic depends on the input.
- `HauntedWasteland.ReachZ`: the walk takes a `fuel` bound. `None` means no node ending in 'Z' within `fuel` steps; a walk that never ends is not distinguished from a long one.
- `HauntedWasteland.SolvePart2`: only the `Some` result is specified. `None` means that some start ran out of fuel.
- `PipeMaze.SolvePart1`: loop following takes a `fuel` bound and reports `OutOfFuel` when it is spent. A pipe that never returns to the start is not distinguished from a long one.
- `PipeMaze.SolvePart2` takes the pipe found by part 1 as a parameter, as the source passes it on.
- PipeMaze.SolvePart2 and PipeMaze.StartNext require a single start (`UniqueStart`), as part 1 does. With a second start among the first start's neighbours, the source's `Tile::Start` arm of `find_next_cells` (day-10/src/main.rs:59) calls itself back on the first start without end and overflows the stack. That non-terminating case is not modelled.
- The library containers are modelled abstractly:
  - day 17's `BinaryHeap` (with its reversed `Ord`) is a multiset with pop-min;
  - day 16's `HashSet` is a `set`;
  - `sort`/`sort_by` (day 7) is an insertion sort proved to give a sorted permutation.
- Crucible.FindMinHeat: `None` is stated as "every walk to the goal costs at least `usize::MAX`", because the cost table starts at `usize::MAX`. With unbounded integers there is no overflow to model.
- Day 17's custom `Hash` and its `straight_count` field are left out; they do not affect any result.
- ParabolicDish: part 2's simulation with the board-keyed `HashMap` is left out. `ParabolicDish.BillionthCycle` proves only its index formula, for any function iterated from a board that repeats.
- The gcd of day 8 comes from an external crate. It is modelled as Euclid's algorithm and proved to be the greatest common divisor.
- SeedFertilizer.SolvePart2: zero-length pairs are excluded (`ValidSeedPairs` asks every length to be at least one). The source accepts a pair (start, 0) with start ≥ 1 and searches the empty range (start, start − 1). Its search then either underflows a `u128` (an entry whose source value is `start` and whose destination is 0) or returns a location although the pair holds no seed: with no maps, the location `start`. The model's range search and its minimum are defined only on nonempty ranges, so that result is not modelled.
- SeedFertilizer.SolvePart2: with the source's straddle test (`asWritten`) the result is stated only as the running minimum of the search, and as the least location only when every range holds one seed; StrictStraddleMissesEntry shows it can then exceed the least location (see Findings).
- HotSprings.SolvePart1 and HotSprings.SolvePart2 take a `fixedBase` flag. With `false` they compute what the code computes. `HotSprings.TotalCorrect` proves that with `true` the total is the true number of arrangements.
- LavaductLagoon.SolvePart1 and LavaductLagoon.SolvePart2 take an `asWritten` flag. With `true` they halve the signed shoelace sum as the code does; with `false` they halve its absolute value.
- LavaductLagoon.Lagoon: Pick's theorem (that the formula counts the dug cells) is not proved in general. It is proved for rectangles drawn either way round (`RectangleLagoon`) and preserved under reflection (`MirrorLagoon`).

## Findings

| source | as written | input that shows it | evidently intended | confidence | as-written member | corrected member |
|---|---|---|---|---|---|---|
| day-5/src/main.rs:114 | a range that starts before an entry and ends one past the entry's last source value (`end == src + len`) fails all three tests: line 104 needs `end < src + len` and line 114 needs `end > src + len`. It is neither split nor shifted, so the entry is ignored for it | seed range (4, 6) with the single map entry [0, 5, 1]: as written the least location is 4, although seed 5 maps to 0 | split the range at `src` whenever it starts before the entry and reaches into it (`end >= src + len` here, since the inner cases have gone) | not executed | SeedFertilizer.StrictStraddleMissesEntry | SeedFertilizer.RangeLowestIsMin |
| day-12/src/main.rs:54-56 | the first row sets `dp[i + 1] = 1` for every spring that is not '#', even after an earlier '#' | record "#?.?" with groups [1]: as written 2 arrangements, but only "#..." fits, so 1 | `dp[i + 1] = 1` only while no '#' has appeared yet (a prefix take-while) | not executed | HotSprings.BaseRowOvercounts | HotSprings.ArrangementsCorrect |
| day-18/src/main.rs:81 | the signed shoelace sum is halved, so a plan drawn anticlockwise on the screen subtracts its area | R 2, U 2, L 2, D 2: as written 1, but the lagoon is 3 by 3, so 9 | halve the absolute value of the shoelace sum | not executed | LavaductLagoon.AnticlockwiseSquare | LavaductLagoon.RectangleLagoon |
