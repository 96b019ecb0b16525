# Advent of Code 2023, days 1 to 10, in Dafny

This project models the puzzle solutions of an Advent of Code 2023
repository written in Rust. It covers the parsers, the loops that compute
the answers, and the data each day works on. Each day and part has one
module, named `DayNNPartM`. Shared helpers are in `Common`:
- `Option`;
- sums and products;
- splitting a string on a separator, and `Join`, its inverse;
- reading and printing decimal numbers.

- **Day 1: trebuchet calibration.** Part 1 keeps the first and last digit
  of a line. Part 2 also reads spelled-out digits ("one" to "nine"), and
  matches may overlap.
- **Day 2: cube games.** Part 1 parses `Game n: 3 blue, 4 red; ...` lines
  and keeps the games possible with 12 red, 13 green and 14 blue cubes.
  Part 2 sums the power of the smallest set of cubes for each game.
- **Day 3: engine schematic.** Part 1 finds the numbers adjacent to a
  symbol. Part 2 finds the gears: `*` symbols with exactly two adjacent
  numbers.
- **Day 4: scratchcards.** Part 1 scores the matches of each card. Part 2
  runs the cascade of copies with a stack of cards still to process.
- **Day 5: seed almanac.** Part 1 maps single seeds through the stages.
  Part 2 maps whole seed ranges with a worklist that splits each range
  against a stage's rules.
- **Day 6: boat races.** Part 1 counts the winning hold times of each race.
  Part 2 counts them for the one race written with its digits run together.
- **Day 7: Camel Cards with jokers.** Hand types, the joker rule, ordering
  and the winnings.
- **Day 8: desert network.** Part 1 walks from `AAA` to `ZZZ`. Part 2 builds
  a looping sequence for each ghost and intersects the steps at which the
  ghosts stand on a finish node.
- **Day 9: OASIS histories.** Difference rows and extrapolating the next
  value.
- **Day 10: pipe maze.** Parsing the tiles into a grid, and listing the
  tiles next to a tile. The answer itself is unfinished in the source
  (`todo!()`).

The Rust code loops over lines and characters and pushes into vectors.
Those loops are Dafny methods, each proved against a function that states
what it computes. Code that only combines values (parsers, scores, matches)
is modelled as functions. The lemmas state:
- the properties the code relies on;
- the unit tests written in the source files;
- round trips between the parsers and printing functions written for the
  proofs.

## Model

| member | source | states |
|---|---|---|
| Day01Part1.Digits | day-01/src/bin/part-1.rs:25-38 | every character the loop keeps is a decimal digit value (at most 9) |
| Day01Part1.ParseLine | day-01/src/bin/part-1.rs:20-46 | the character loop with `first_digit`/`second_digit` returns the line's value: 10 × first digit + last digit, or 0 when the line has no digit |
| Day01Part1.LineValueBounds | day-01/src/bin/part-1.rs:41-45 | a line's value is at most 99; no digit gives 0; a single digit d gives 11·d |
| Day01Part1.NonDigitsIgnored | day-01/src/bin/part-1.rs:27 | inserting a non-digit character anywhere changes neither the digits nor the value |
| Day01Part1.DigitsConcat | day-01/src/bin/part-1.rs:25-38 | the digits of a concatenation are the digits of each part, in order |
| Day01Part1.NoDigits | day-01/src/bin/part-1.rs:27 | a line without digit characters yields no digits |
| Day01Part1.ExampleTwoDigits | day-01/src/bin/part-1.rs:58-61 | "ab1-2c" is worth 12 |
| Day01Part1.ExampleOneDigit | day-01/src/bin/part-1.rs:64-67 | "ab1c" is worth 11 |
| Day01Part1.ExampleNoDigit | day-01/src/bin/part-1.rs:70-73 | "abc" is worth 0 |
| Day01Part1.ExampleThreeDigits | day-01/src/bin/part-1.rs:76-79 | "ab1-2-3c" is worth 13 (the middle digit is skipped) |
| Day01Part1.Part1 | day-01/src/bin/part-1.rs:48-51 | the sum over lines is at most 99 per line and at least the value of each line |
| Day01Part1.Part1Bounds | day-01/src/bin/part-1.rs:48-51 | the sum over lines is at most 99 per line and is additive over concatenated inputs |
| Day01Part2.SpelledDigitToInt | day-01/src/bin/part-2.rs:52-65 | defined exactly on the nine words, mapping the k-th word to k; any other text is the panic (None) |
| Day01Part2.PairDigit | day-01/src/bin/part-2.rs:33-40 | the digit a match stands for is at most 9 |
| Day01Part2.WordFacts | day-01/src/bin/part-2.rs:53-62 | each word is at least three letters, starts with a non-digit and maps to its position + 1 |
| Day01Part2.WordMatch | day-01/src/bin/part-2.rs:25 | finds a spelled digit that prefixes the text exactly when one does |
| Day01Part2.PrefixMatch | day-01/src/bin/part-2.rs:25-34 | the anchored regex matches a non-empty prefix exactly when the text starts with a digit or a digit word |
| Day01Part2.SuffixDigit | day-01/src/bin/part-2.rs:33-40 | a matching substring always yields a digit value of at most 9 |
| Day01Part2.WordsApart | day-01/src/bin/part-2.rs:25 | two digit words cannot both prefix the same text, and a word never starts with a digit: the regex alternatives are mutually exclusive |
| Day01Part2.StartsWithUnique | day-01/src/bin/part-2.rs:25 | a text starts with at most one digit, spelled or written |
| Day01Part2.SuffixDigitStarts | day-01/src/bin/part-2.rs:33-40 | the value read from a match is the digit the text starts with |
| Day01Part2.SuffixDigitExact | day-01/src/bin/part-2.rs:27-40 | a substring matches iff it starts with some digit, and then yields d iff it starts with d |
| Day01Part2.BlankNoMatch | day-01/src/bin/part-2.rs:31 | a position holding no digit and no word start is filtered out |
| Day01Part2.Reads | day-01/src/bin/part-2.rs:27-29 | one read per starting index of the line, overlapping matches included |
| Day01Part2.FlattenConcat | day-01/src/bin/part-2.rs:41 | collecting the reads of two stretches of the line gives both, in order |
| Day01Part2.FoundConcat | day-01/src/bin/part-2.rs:27-41 | the digits found in a stretch are those of its two halves, in order |
| Day01Part2.FoundEmpty | day-01/src/bin/part-2.rs:31 | a stretch yields no digits iff no substring starting in it matches |
| Day01Part2.FoundDigits | day-01/src/bin/part-2.rs:33-40 | every digit collected is at most 9 |
| Day01Part2.FirstRead | day-01/src/bin/part-2.rs:43 | the first collected digit is the one read at the first matching position |
| Day01Part2.LastRead | day-01/src/bin/part-2.rs:44 | the last collected digit is the one read at the last matching position |
| Day01Part2.FirstLast | day-01/src/bin/part-2.rs:43-49 | the line's value is 10 × the first digit read + the last digit read |
| Day01Part2.ParseLine | day-01/src/bin/part-2.rs:24-50 | the value of a line, when it has one, is at most 99 |
| Day01Part2.ParseLineBounds | day-01/src/bin/part-2.rs:43-44 | parse_line panics (None) exactly when no substring matches; otherwise the value is at most 99 |
| Day01Part2.WithoutWords | day-01/src/bin/part-2.rs:27-41 | on a line holding no digit word, the collected digits are part 1's digits |
| Day01Part2.WithoutWordsAgrees | day-01/src/bin/part-2.rs:24-50 | on such lines part 2's parse_line agrees with part 1's, except that no digit is a panic rather than 0 |
| Day01Part2.Part2 | day-01/src/bin/part-2.rs:9-12 | the sum exists iff every line parses, and is then at most 99 per line |
| Day01Part2.NoneMatch | day-01/src/bin/part-2.rs:31 | a stretch of filtered-out positions yields nothing |
| Day01Part2.DigitAt | day-01/src/bin/part-2.rs:35-36 | a written digit is read as its value |
| Day01Part2.WordAt | day-01/src/bin/part-2.rs:37-38 | a spelled word is read as its value |
| Day01Part2.ExampleTwoOneNine | day-01/src/bin/part-2.rs:73-75 | "two1nine" is worth 29 |
| Day01Part2.ExampleEightWoThree | day-01/src/bin/part-2.rs:77-79 | "eightwothree" is worth 83 |
| Day01Part2.ExampleAbcOne | day-01/src/bin/part-2.rs:81-83 | "abcone2threexyz" is worth 13 |
| Day01Part2.ExampleXTwone | day-01/src/bin/part-2.rs:85-87 | "xtwone3four" is worth 24 (overlapping "two" and "one") |
| Day01Part2.ExampleFourNine | day-01/src/bin/part-2.rs:89-91 | "4nineeightseven2" is worth 42 |
| Day01Part2.ExampleZoneight | day-01/src/bin/part-2.rs:93-95 | "zoneight234" is worth 14 |
| Day01Part2.ExampleSevenSixteen | day-01/src/bin/part-2.rs:97-99 | "7pqrstsixteen" is worth 76 |
| Day01Part2.ExampleTwentyEight | day-01/src/bin/part-2.rs:101-103 | "28gtbkszmrtmnineoneightmx" is worth 28 (the overlapping "oneight" ends in 8) |
| Day02Part1.IsHandValid | day-02/src/bin/part-1.rs:25-27 | a hand is possible iff, for every colour, it shows no more cubes than the bag holds |
| Day02Part1.IsHandValidExamples | day-02/src/bin/part-1.rs:106-121 | the is_hand_valid test: 1/1/1 fits a 1/1/1 bag, 2 red does not |
| Day02Part1.IsGameValid | day-02/src/bin/part-1.rs:29-36 | the early-return loop answers true iff every hand of the game is possible |
| Day02Part1.GameValidExample | day-02/src/bin/part-1.rs:124-146 | the is_game_valid test game is impossible; a game without hands is always possible |
| Day02Part1.LastCountAbsent | day-02/src/bin/part-1.rs:59-69 | a colour no token names keeps its count of 0 |
| Day02Part1.LastCountAt | day-02/src/bin/part-1.rs:59-69 | the count of the last token of a colour is the one the hand keeps |
| Day02Part1.LastCountIsLast | day-02/src/bin/part-1.rs:59-69 | the last token of a colour sets that colour's count, and a colour without a token stays 0 |
| Day02Part1.ParseHand | day-02/src/bin/part-1.rs:50-72 | the loop over the `N colour` matches of a piece, starting from 0/0/0 with each match overwriting its colour, yields each colour's last count |
| Day02Part1.ParseHandSingleColour | day-02/src/bin/part-1.rs:88-94 | the text "1 red" gives 1/0/0 (red/blue/green) |
| Day02Part1.ParseHandMultipleColours | day-02/src/bin/part-1.rs:96-102 | the text "1 red, 2 blue, 3 green" gives 1/2/3 |
| Day02Part1.MatchAt | day-02/src/bin/part-1.rs:51 | a match of the hand pattern at the front of a text is a digit run, one space and a colour word, and its count is the value of the digits |
| Day02Part1.MatchAtSpelling | day-02/src/bin/part-1.rs:51 | conversely, every digit run followed by a space and a colour word is matched there, whatever follows it |
| Day02Part1.TokensSkip | day-02/src/bin/part-1.rs:59 | the search for matches passes over a character that cannot start one |
| Day02Part1.TokensAfterText | day-02/src/bin/part-1.rs:59 | a written `N colour` is matched and the search resumes right after it |
| Day02Part1.TokensHandText | day-02/src/bin/part-1.rs:59-69 | the matches found in a hand written as the puzzle writes it are that hand's tokens, in order |
| Day02Part1.ParseInputLine | day-02/src/bin/part-1.rs:38-48 | a line is a game iff it is "Game ", a digit run, ':' and no line break after it (otherwise the source panics); the id is then the value of the digits, and each `;`-separated piece after the ':' is one hand, made from the matches in that piece |
| Day02Part1.ParseGameText | day-02/src/bin/part-1.rs:38-48 | a game written as "Game N:" and its hands separated by ';' parses back to its id and hands |
| Day02Part1.ParseGames | day-02/src/bin/part-1.rs:76-78 | the input is read iff every line is a game, one game per line in order |
| Day02Part1.Part1 | day-02/src/bin/part-1.rs:75-83 | the answer exists iff every line is a game; it never exceeds the sum of the ids, and equals it when every game is possible |
| Day02Part1.Part1Concat | day-02/src/bin/part-1.rs:79-81 | the sum of the ids of the possible games is additive over the games |
| Day02Part1.Part1Bounds | day-02/src/bin/part-1.rs:75-83 | one game contributes its id iff it is possible; with all games possible the answer is the sum of the ids, and it never exceeds that sum |
| Day02Part2.MaxCountIsMax | day-02/src/bin/part-2.rs:27-37 | the running maximum of a colour bounds every hand and, unless it is 0, is reached by some hand |
| Day02Part2.MinBagIsLeast | day-02/src/bin/part-2.rs:20-37 | the minimum bag makes the game possible, and a bag does iff it holds at least the minimum in every colour |
| Day02Part2.PowerZero | day-02/src/bin/part-2.rs:39 | a colour absent from every hand makes the power 0 |
| Day02Part2.CalculatePowerSet | day-02/src/bin/part-2.rs:20-40 | the loop that raises min_bag colour by colour returns the power of the minimum bag |
| Day02Part2.MinBag | day-02/src/bin/part-2.rs:20-37 | a game without hands needs 0/0/0, and a game of one hand needs exactly that hand |
| Day02Part2.Part2 | day-02/src/bin/part-2.rs:79-85 | the answer exists iff every line is a game, and it is at least the power of each game's minimum bag |
| Day02Part2.PowerSumBounds | day-02/src/bin/part-2.rs:83-84 | each game's power is at most the sum of the powers |
| Day02Part2.Part2Concat | day-02/src/bin/part-2.rs:83-84 | the sum of the powers is additive over the games |
| Day02Part2.PowerOfThree | day-02/src/bin/part-2.rs:27-37 | for three hands, each colour of the minimum bag is the largest of the three counts |
| Day02Part2.PowerExampleOne | day-02/src/bin/part-2.rs:98-104 | the line "Game 1: 3 blue, 4 red; 1 red, 2 green, 6 blue; 2 green" is a game whose minimum bag has power 48 |
| Day02Part2.PowerExampleTwo | day-02/src/bin/part-2.rs:106-112 | the line "Game 2: 1 blue, 2 green; 3 green, 4 blue, 1 red; 1 green, 1 blue" is a game whose minimum bag has power 12 |
| Day02Part2.PowerExampleThree | day-02/src/bin/part-2.rs:113-119 | the line "Game 3: 8 green, 6 blue, 20 red; 5 blue, 4 red, 13 green; 5 green, 1 red" is a game whose minimum bag has power 1560 |
| Day02Part2.GameOneHands | day-02/src/bin/part-2.rs:99-104 | the hands of the first test line parse to 4/3/0, 1/6/2 and 0/0/2 (red/blue/green) |
| Day02Part2.GameTwoHands | day-02/src/bin/part-2.rs:106-112 | the hands of the second test line parse to 0/1/2, 1/4/3 and 0/1/1 |
| Day02Part2.GameThreeHands | day-02/src/bin/part-2.rs:113-119 | the hands of the third test line parse to 20/6/8, 4/5/13 and 1/0/5 |
| Day03Part1.FormatKey | day-03/src/bin/part-1.rs:11-13 | the `col,row` key splits at its comma into the column and the row as written |
| Day03Part1.FormatKeyInjective | day-03/src/bin/part-1.rs:11-13 | the two pieces of a key read back as its column and row, so distinct cells never share a key |
| Common.RunEnd | day-03/src/bin/part-1.rs:49-56 | the end of the `\d+` match starting at i: all digits up to it, a non-digit (or the end of the line) at it, past i when a digit starts there |
| Common.RunEndIsEnd | day-03/src/bin/part-1.rs:49 | any end with those properties is the match's end |
| Day03Part1.RunsExact | day-03/src/bin/part-1.rs:51-57 | the numbers the regex finds in a line are exactly its maximal digit runs, each with its value, row and columns |
| Day03Part1.RunsOrdered | day-03/src/bin/part-1.rs:51-57 | the runs are found left to right and do not overlap |
| Day03Part1.NumbersOfExact | day-03/src/bin/part-1.rs:45-66 | engine_numbers holds exactly the maximal digit runs of every row |
| Day03Part1.GenerateAdjacentKeys | day-03/src/bin/part-1.rs:17-37 | the keys are exactly the cells from one column left of the run (none left of column 0) through col_end, in the row above (when there is one), the row itself and the row below; three or two keys per column |
| Day03Part1.PartSumCounts | day-03/src/bin/part-1.rs:68-96 | a number counts iff a symbol is in one of its adjacent cells; the sum is all values when every number touches a symbol, 0 when none does, and never more than all values |
| Day03Part1.PartSumConcat | day-03/src/bin/part-1.rs:70-96 | the sum of the part numbers is additive over the engine numbers |
| Day03Part1.NoSymbolsNoParts | day-03/src/bin/part-1.rs:39-97 | a schematic without symbols has answer 0 |
| Day03Part1.Part1 | day-03/src/bin/part-1.rs:39-97 | the loops over the lines, the captures and the engine numbers (with the early `break`) return the sum of the numbers touching a symbol (`[^\d.]`) |
| Day03Part2.IsEngineNumberAdjacent | day-03/src/bin/part-2.rs:10-35 | the gear is adjacent iff it lies in one of the cells part 1's generate_adjacent_keys lists for the number |
| Day03Part2.StarsInExact | day-03/src/bin/part-2.rs:47-61 | the gears of a line are exactly its `*` cells |
| Day03Part2.GearsOfExact | day-03/src/bin/part-2.rs:45-63 | the gears are exactly the `*` cells of the schematic |
| Day03Part2.AdjacentIndicesExact | day-03/src/bin/part-2.rs:71-80 | the filter keeps exactly the numbers adjacent to the gear, in increasing order |
| Day03Part2.GearRatioExactlyTwo | day-03/src/bin/part-2.rs:82-86 | a gear has a ratio iff exactly two numbers are adjacent to it, and the ratio is their product |
| Day03Part2.PairRatio | day-03/src/bin/part-2.rs:82-83 | with exactly numbers i and j adjacent, the filter yields [i, j] and the ratio is their product |
| Day03Part2.IncreasingOverTwo | day-03/src/bin/part-2.rs:82 | an increasing list drawn from two indexes has at most two elements, and then is exactly those two |
| Day03Part2.Part2 | day-03/src/bin/part-2.rs:37-91 | the loops return the sum of the ratios of the gears |
| Day03Part2.GearSumConcat | day-03/src/bin/part-2.rs:68-88 | the sum of the ratios is additive over the gears |
| Day03Part2.GearNumbersAreParts | day-03/src/bin/part-2.rs:28-32 | the two numbers of a gear are part numbers in part 1's sense, since `*` is a symbol |
| Day04Part1.ParseU32 | day-04/src/bin/part-1.rs:25 | a token is read iff it is a decimal spelling whose value fits in 32 bits, and then as that value |
| Day04Part1.WinningSetExact | day-04/src/bin/part-1.rs:18-26 | the winning set holds exactly the 32-bit numbers that some token left of the bar spells; the other tokens are dropped |
| Day04Part1.MatchCount | day-04/src/bin/part-1.rs:28-36 | the count of matches never exceeds the number of tokens |
| Day04Part1.MatchCountExact | day-04/src/bin/part-1.rs:32-36 | the count is the number of positions holding a token that parses to a winning number; it is 0 iff no token matches |
| Day04Part1.MatchCountConcat | day-04/src/bin/part-1.rs:31-36 | the count is additive over the tokens |
| Day04Part1.MatchCountMonotone | day-04/src/bin/part-1.rs:33 | more winning numbers never give fewer matches |
| Day04Part1.BlankTokenSkipped | day-04/src/bin/part-1.rs:24-34 | the empty token that a double space leaves changes neither the winning set nor the count |
| Day04Part1.CardMatches | day-04/src/bin/part-1.rs:16-30 | a line yields a count exactly when it has a bar whose left side holds a colon; the other lines are the `expect` panics (None) |
| Day04Part1.CardMatchesShape | day-04/src/bin/part-1.rs:16-36 | for a line `head:left`, a bar, then `right`, the count is the number of tokens of right that are in the winning set of left |
| Day04Part1.PointsDouble | day-04/src/bin/part-1.rs:38-42 | 0 matches score 0, 1 match scores 1, each further match doubles the score |
| Day04Part1.Points | day-04/src/bin/part-1.rs:38-42 | a card scores 0 iff it has no match, and otherwise half of 2 to the power of its matches |
| Day04Part1.PointsMonotone | day-04/src/bin/part-1.rs:38-42 | more matches never score less |
| Day04Part1.CardsOf | day-04/src/bin/part-1.rs:13-15 | one result per line, each the line's count |
| Day04Part1.TotalPointsExact | day-04/src/bin/part-1.rs:13-44 | the sum exists iff every line parses; it is additive over lines, and a failing line makes the whole input fail |
| Day04Part1.Part1 | day-04/src/bin/part-1.rs:10-45 | the answer exists iff every line is a card |
| Day04Part1.Part1Exact | day-04/src/bin/part-1.rs:10-45 | part1 answers iff every line is a card, and is additive over the lines |
| Day04Part1.ShownMatches | day-04/src/bin/part-1.rs:31-36 | printed own numbers match as many times as the numbers themselves |
| Day04Part1.ShownWinning | day-04/src/bin/part-1.rs:24-26 | printed winning numbers parse back to the same set |
| Day04Part1.CardLineMatches | day-04/src/bin/part-1.rs:16-36 | a card line written from winning and own numbers, all of them 32-bit, parses to the number of own numbers that are winning |
| Day04Part1.OversizedNumberDropped | day-04/src/bin/part-1.rs:25-35 | a number beyond 32 bits fails to parse on both sides of the bar, so a card whose only number on each side is 4294967296 has no match |
| Day04Part1.SampleCard1 | day-04/src/bin/part-1.rs:55 | card 1 of the test has 4 matches |
| Day04Part1.SampleCard2 | day-04/src/bin/part-1.rs:56 | card 2 has 2 matches |
| Day04Part1.SampleCard3 | day-04/src/bin/part-1.rs:57 | card 3 has 2 matches |
| Day04Part1.SampleCard4 | day-04/src/bin/part-1.rs:58 | card 4 has 1 match |
| Day04Part1.SampleCard5 | day-04/src/bin/part-1.rs:59 | card 5 has no match |
| Day04Part1.SampleCard6 | day-04/src/bin/part-1.rs:60 | card 6 has no match |
| Day04Part1.SampleMatches | day-04/src/bin/part-1.rs:54-61 | the six test cards parse to 4, 2, 2, 1, 0 and 0 matches |
| Day04Part1.SampleTotal | day-04/src/bin/part-1.rs:38-44 | those counts score 13 in total |
| Day04Part1.Sample | day-04/src/bin/part-1.rs:52-64 | the test input scores 13 |
| Day04Part2.NumberCards | day-04/src/bin/part-2.rs:18-47 | each line becomes (index + 1, its count), and the list exists iff every line parses |
| Day04Part2.ParseCards | day-04/src/bin/part-2.rs:18-47 | the cards exist iff every line is a card; they are numbered 1.. in order and carry each line's count |
| Day04Part2.WinEnd | day-04/src/bin/part-2.rs:60-64 | the copies of card i end past i and within the list |
| Day04Part2.Won | day-04/src/bin/part-2.rs:54-68 | processing one card collects at least that card |
| Day04Part2.WonRange | day-04/src/bin/part-2.rs:64-67 | processing a range of cards collects at least one card each |
| Day04Part2.PendingConcat | day-04/src/bin/part-2.rs:52-69 | the cards still to collect from a stack are additive over its parts |
| Day04Part2.PendingSlice | day-04/src/bin/part-2.rs:64-67 | pushing the copies lo..hi adds the yield of that range |
| Day04Part2.PendingSnoc | day-04/src/bin/part-2.rs:54 | popping the top card removes that card's yield from what is pending |
| Day04Part2.WonUnfold | day-04/src/bin/part-2.rs:55-67 | a card yields itself plus the yield of its copies |
| Day04Part2.PopArith | day-04/src/bin/part-2.rs:54-68 | a pop that pushes the card's copies lowers what is pending by exactly one |
| Day04Part2.CopiesYield | day-04/src/bin/part-2.rs:58-67 | the copies a card pushes are list cards, and the card yields 1 + what they yield |
| Day04Part2.PopPending | day-04/src/bin/part-2.rs:54-68 | one iteration of the while-let loop lowers the pending count by exactly one |
| Day04Part2.OriginalTop | day-04/src/bin/part-2.rs:52-54 | while the stack still starts with the first p original cards, card p sits at position p - 1 |
| Day04Part2.PushCopies | day-04/src/bin/part-2.rs:58-68 | the inner `for` pushes cards[card.0..card.0 + matches]; it fails (the index panic) exactly when those cards run past the end of the list |
| Day04Part2.PrefixKept | day-04/src/bin/part-2.rs:54-67 | pops and pushes keep an untouched prefix of original cards below them |
| Day04Part2.PopStep | day-04/src/bin/part-2.rs:54-68 | an iteration keeps the cascade invariant (collected + pending = total) and strictly lowers what is pending, so the loop ends |
| Day04Part2.Collect | day-04/src/bin/part-2.rs:49-71 | the stack loop returns the total number of cards collected, or fails iff some processed card's copies run past the end of the list |
| Day04Part2.Part2 | day-04/src/bin/part-2.rs:17-72 | part2 answers iff every line parses and no copy runs past the end, and then returns the total |
| Day04Part2.PendingAtLeast | day-04/src/bin/part-2.rs:54-55 | every card on the stack is collected at least once |
| Day04Part2.TotalAtLeast | day-04/src/bin/part-2.rs:52-71 | at least every original card is collected |
| Day04Part2.Pick | day-04/src/bin/part-2.rs:51 | processing any card of the stack, not only the top, removes it and adds its copies |
| Day04Part2.PendingRemove | day-04/src/bin/part-2.rs:51 | removing any card from the stack removes its yield |
| Day04Part2.PickPending | day-04/src/bin/part-2.rs:51-67 | processing any card of the stack lowers the pending count by one |
| Day04Part2.RunCollects | day-04/src/bin/part-2.rs:51 | processing order doesn't matter: any order that empties the stack takes exactly as many steps as the cards pending at the start |
| Day04Part2.SampleTotal | day-04/src/bin/part-2.rs:88 | cards with 4, 2, 2, 1, 0, 0 matches never run past the end and collect 30 cards |
| Day04Part2.SampleNumbered | day-04/src/bin/part-2.rs:18-47 | those six counts number into the sample's cards |
| Day04Part2.SampleParse | day-04/src/bin/part-2.rs:18-47 | six lines with those counts parse into the sample's cards |
| Day04Part2.SampleLines | day-04/src/bin/part-2.rs:78-89 | the six test cards collect 30 cards |
| Day05Part1.MapRangeValue | day-05/src/bin/part-1.rs:19-25 | a rule answers exactly for values from its source start up to and including source start + range, and the answer lies in the destination span |
| Day05Part1.MapRangeValueHalfOpen | day-05/src/bin/part-1.rs:19-25 | away from the one extra value at the inclusive end, a part-one rule matches and maps exactly like the half-open part-two transform |
| Day05Part1.InclusiveEndMapsOnePast | day-05/src/bin/part-1.rs:20 | rule `50 98 2` maps 100, one past its source range, to 52, where the half-open transform leaves 100 unchanged |
| Day05Part1.MapRangeValueExamples | day-05/src/bin/part-1.rs:187-211 | rule `50 98 2` maps 99 to 51 and does not map 20 |
| Day05Part1.MappingValueFirstMatch | day-05/src/bin/part-1.rs:40-47 | a mapping returns the answer of its first rule that matches |
| Day05Part1.MappingValueNoMatch | day-05/src/bin/part-1.rs:40-47 | a value no rule matches passes through unchanged |
| Day05Part1.MappingMapValue | day-05/src/bin/part-1.rs:40-47 | the loop over the rules returns the first-match mapping value |
| Day05Part1.MappingValueIsRuleAnswer | day-05/src/bin/part-1.rs:40-47 | a mapping answers the value itself or the answer of one of its rules |
| Day05Part1.MappingValueExamples | day-05/src/bin/part-1.rs:213-255 | the two-rule mapping sends 99 to 51 and 20 to 20 |
| Day05Part1.Lowest | day-05/src/bin/part-1.rs:87-97 | the minimum is absent exactly for no seeds, is the location of some seed and is at most every seed's location |
| Day05Part1.Part1 | day-05/src/bin/part-1.rs:87-97 | the fold over the seeds computes that minimum |
| Day05Part1.ParseSeeds | day-05/src/bin/part-1.rs:100-109 | the seeds line parses exactly when it has at least 7 characters and every space-separated piece after them is a number, giving one seed per piece |
| Day05Part1.ParseSeedsRoundTrip | day-05/src/bin/part-1.rs:100-109 | a `seeds:` line written from any non-empty list of numbers parses back to that list |
| Day05Part1.ParseSeedsExample | day-05/src/bin/part-1.rs:150-158 | `seeds: 79 14 55 13` parses to 79, 14, 55, 13 |
| Day05Part1.ParseRangeLine | day-05/src/bin/part-1.rs:119-140 | a rule line parses exactly when its first three numbers are present |
| Day05Part1.ParseRangeLineRoundTrip | day-05/src/bin/part-1.rs:119-140 | every rule written as a line parses back to itself |
| Day05Part1.ParseMappings | day-05/src/bin/part-1.rs:111-144 | a block fails exactly when one of its lines before the blank line is not a rule; otherwise it yields one rule per line, in order, and resumes after the blank line |
| Day05Part1.AllRangeLinesParse | day-05/src/bin/part-1.rs:111-144 | when a rule was read from every line of a block, every line of it parses |
| Day05Part1.ParseMappingsExample | day-05/src/bin/part-1.rs:160-185 | the lines `50 98 2` and `52 50 48` parse to those rules |
| Day05Part1.LocationByStages | day-05/src/bin/part-1.rs:87-95 | a seed's location is reached by applying the mappings one after another |
| Day05Part1.SampleSeedLocations | day-05/src/bin/part-1.rs:257-296 | in the sample almanac seeds 79, 14, 55 and 13 reach locations 82, 43, 86 and 35 |
| Day05Part1.SampleLowest | day-05/src/bin/part-1.rs:257-296 | the sample almanac's lowest location is 35 |
| Day05Part2.TotalLengthConcat | day-05/src/bin/part-2.rs:5-79 | the total length of a list of ranges adds up over concatenation |
| Day05Part2.MultiplicityConcat | day-05/src/bin/part-2.rs:5-79 | how many ranges of a list hold a value adds up over concatenation |
| Day05Part2.MultiplicityPositive | day-05/src/bin/part-2.rs:5-79 | a value is counted exactly when some range of the list holds it |
| Day05Part2.MatchRanges | day-05/src/bin/part-2.rs:89-101 | Equals exactly for equal ranges; IsInside, Spans and IntersectsWith each imply their geometric relation; None implies no shared value |
| Day05Part2.MatchNoneIffDisjoint | day-05/src/bin/part-2.rs:89-101 | for non-empty ranges None is answered exactly when they share no value |
| Day05Part2.MatchRangesExamples | day-05/src/bin/part-2.rs:329-346 | the six test pairs are classified as the tests expect |
| Day05Part2.MapValue | day-05/src/bin/part-2.rs:122-129 | a value of the source range moves by the rule's offset into the destination; any other value is unchanged |
| Day05Part2.MapValueBijective | day-05/src/bin/part-2.rs:122-129 | on its source range a rule hits every destination value exactly once |
| Day05Part2.MapValueExample | day-05/src/bin/part-2.rs:317-327 | rule 98..100 to 50..52 sends 99 to 51 |
| Day05Part2.StageValueAt | day-05/src/bin/part-2.rs:17-24 | a stage maps a value by the first rule whose source holds it |
| Day05Part2.StageValueOutside | day-05/src/bin/part-2.rs:26-30 | a value no rule's source holds is unchanged by the stage |
| Day05Part2.FindMatch | day-05/src/bin/part-2.rs:17-24 | the search returns the first rule whose source the input meets, with its classification, or none when it meets no rule |
| Day05Part2.SplitRange | day-05/src/bin/part-2.rs:26-75 | one turn pushes at most two well-formed ranges back, of smaller weight than what was popped |
| Day05Part2.SplitFaithful | day-05/src/bin/part-2.rs:38-75 | the range pushed to the outputs is the rigid image, under the stage, of the part of the input it came from |
| Day05Part2.SplitPartitions | day-05/src/bin/part-2.rs:38-75 | that part and the ranges pushed back cover the popped range exactly once, value by value, and their lengths add up to its length |
| Day05Part2.ResolveFaithful | day-05/src/bin/part-2.rs:14-76 | the loop produces at least one output per input, and every output is the faithful image of a piece of the input |
| Day05Part2.ResolvePartitions | day-05/src/bin/part-2.rs:14-76 | those pieces cover the inputs exactly as often as the inputs cover each value |
| Day05Part2.ResolveConservesLength | day-05/src/bin/part-2.rs:14-76 | the outputs have the same total length as the inputs |
| Day05Part2.StageCovers | day-05/src/bin/part-2.rs:5-79 | the image of every input value under the stage lies in some output |
| Day05Part2.StageSound | day-05/src/bin/part-2.rs:5-79 | every value of an output is the image of some input value |
| Day05Part2.ResolveStep | day-05/src/bin/part-2.rs:14 | one pop of the last range advances the worklist and lowers its weight |
| Day05Part2.MapOne | day-05/src/bin/part-2.rs:17-75 | one turn of the loop pushes the output and the pieces the split defines |
| Day05Part2.StageOutputs | day-05/src/bin/part-2.rs:5-79 | the outputs are well formed, at least as many as the inputs, of equal total length, and cover the stage image of every input value |
| Day05Part2.MapRanges | day-05/src/bin/part-2.rs:5-79 | the worklist loop returns exactly the images of the resolved pieces, in push order, with the properties above |
| Day05Part2.MapRangesValue | day-05/src/bin/part-2.rs:5-79 | the outputs of a stage are well formed and at least as many as the inputs |
| Day05Part2.Pipeline | day-05/src/bin/part-2.rs:186-191 | applying every stage keeps the ranges well formed and never loses one |
| Day05Part2.MinStart | day-05/src/bin/part-2.rs:191-192 | the lowest start is absent exactly for no ranges, is the start of one of them and is at most every start |
| Day05Part2.PipelineCovers | day-05/src/bin/part-2.rs:157-193 | the location of every seed value lies in some final range |
| Day05Part2.PipelineSound | day-05/src/bin/part-2.rs:157-193 | every value of a final range is the location of some seed value |
| Day05Part2.Part2IsLowerBound | day-05/src/bin/part-2.rs:157-193 | the answer is at most the location of every seed value |
| Day05Part2.Part2 | day-05/src/bin/part-2.rs:191-192 | the answer is absent exactly when there are no seed ranges |
| Day05Part2.PipelineEmpty | day-05/src/bin/part-2.rs:5-79 | no seed ranges give no final ranges |
| Day05Part2.EmptyPieceLowersMinimum | day-05/src/bin/part-2.rs:66-74 | seeds 0..5 through rules 3..5 and 0..3 answer 5, though every seed's location is at least 100 |
| Day05Part2.EmptyPieceResolve | day-05/src/bin/part-2.rs:66-74 | on that stage the loop outputs the empty range 5..5 pushed back by the Spans case |
| Day05Part2.NonEmpty | day-05/src/bin/part-2.rs:186-192 | dropping empty ranges keeps exactly the values every range holds |
| Day05Part2.Part2NonEmptyIsLowestLocation | day-05/src/bin/part-2.rs:157-193 | ignoring empty final ranges, the answer is absent exactly when the seeds hold no value, and otherwise is the lowest location of any seed value |
| Day05Part2.SeedNumbers | day-05/src/bin/part-2.rs:195-214 | writing ranges back as `start length` numbers gives two numbers per range |
| Day05Part2.SeedNumbersAt | day-05/src/bin/part-2.rs:207-211 | the numbers at 2k and 2k+1 are the start and length of the k-th range |
| Day05Part2.SeedPairStep | day-05/src/bin/part-2.rs:207-211 | one step of the pair loop appends the next range and keeps the round trip |
| Day05Part2.ParseSeeds | day-05/src/bin/part-2.rs:195-214 | an odd count of numbers fails; otherwise the ranges read back to exactly the numbers given |
| Day05Part2.ParseSeedsExample | day-05/src/bin/part-2.rs:254-261 | 79 14 55 13 read as ranges 79..93 and 55..68 |
| Day05Part2.ParseRule | day-05/src/bin/part-2.rs:224-243 | a rule line parses exactly when its three numbers are present, into source and destination of the given starts and common length |
| Day05Part2.ParseRuleRoundTrip | day-05/src/bin/part-2.rs:224-243 | every rule written as a line parses back to itself |
| Day05Part2.BlockEnd | day-05/src/bin/part-2.rs:216-248 | a block ends at the first blank line at or after its start, or at the end of the input |
| Day05Part2.ParseMapping | day-05/src/bin/part-2.rs:216-248 | a block fails exactly when one of its lines is not a rule; otherwise it yields one rule per line, in order, and resumes after the blank line |
| Day05Part2.AllRulesParse | day-05/src/bin/part-2.rs:216-248 | when a rule was read from every line of a block, every line of it parses |
| Day05Part2.ParseMappingRoundTrip | day-05/src/bin/part-2.rs:216-248 | rules written one per line, with no blank line, form one block that parses back to those rules |
| Day05Part2.BlockEndNoBlank | day-05/src/bin/part-2.rs:216-248 | without a blank line the block runs to the end of the input |
| Day05Part2.ParseMappingExample | day-05/src/bin/part-2.rs:263-286 | the lines `50 98 2` and `52 50 48` parse to the test's transforms |
| Day05Part2.SampleResolve | day-05/src/bin/part-2.rs:288-315 | 0..100 through the two test rules resolves into the pieces the loop pushes, in order |
| Day05Part2.MapRangesExample | day-05/src/bin/part-2.rs:288-315 | 0..100 maps to 240..260, 280..300, 60..80 and 0..40 |
| Day06Part1.DistanceTravelled | day-06/src/bin/part-1.rs:44-46 | the distance is 0 exactly when the speed or the time is 0, and at speed 1 or more it is at least the time |
| Day06Part1.Holds | day-06/src/bin/part-1.rs:11-20 | the loop over holds 1 to n - 1 collects at most n - 1 holds |
| Day06Part1.DistanceTravelledExamples | day-06/src/bin/part-1.rs:99-103 | speed 1 for 6 ms covers 6 mm and speed 5 for 2 ms covers 10 mm |
| Day06Part1.HoldsExact | day-06/src/bin/part-1.rs:11-20 | the holds collected below n are exactly the winning holds below n, strictly increasing |
| Day06Part1.WinningHolds | day-06/src/bin/part-1.rs:11-20 | the loop returns exactly the winning holds of the race, each once, in increasing order |
| Day06Part1.WinsSymmetric | day-06/src/bin/part-1.rs:11-20 | holding h wins exactly when holding time - h wins |
| Day06Part1.WinsInterval | day-06/src/bin/part-1.rs:11-20 | when lo is the first winning hold, the winning holds are exactly lo to time - lo |
| Day06Part1.HoldsAreInterval | day-06/src/bin/part-1.rs:11-20 | the holds collected below n form the interval from the first winning hold up to n - 1 or the last winning hold |
| Day06Part1.WinningCount | day-06/src/bin/part-1.rs:11-20 | with lo the first winning hold, the race has time - 2 lo + 1 winning holds |
| Day06Part1.WinningHoldsExample | day-06/src/bin/part-1.rs:90-97 | a 7 ms race with record 9 is won by holding 2, 3, 4 or 5 ms |
| Day06Part1.ProductZero | day-06/src/bin/part-1.rs:29-36 | the product of the counts is 0 exactly when some race cannot be won |
| Day06Part1.Zip | day-06/src/bin/part-1.rs:76-83 | pairing stops at the shorter list and pairs the i-th time with the i-th distance |
| Day06Part1.DigitGroups | day-06/src/bin/part-1.rs:59-62 | every group the number pattern captures is a non-empty run of digits |
| Day06Part1.DigitGroupsAreRuns | day-06/src/bin/part-1.rs:59-62 | the captured groups are exactly the maximal digit runs of the text, in order |
| Day06Part1.Numbers | day-06/src/bin/part-1.rs:59-62 | one number per captured group, each the value of its digits |
| Day06Part1.Field | day-06/src/bin/part-1.rs:52-57 | the text after the first colon exists exactly when the line holds a colon |
| Day06Part1.SplitOnNoSeparator | day-06/src/bin/part-1.rs:55-57 | splitting gives a single piece exactly when the separator is absent |
| Day06Part1.ParseInput | day-06/src/bin/part-1.rs:48-84 | parsing succeeds exactly when there are two lines each holding a colon, and then pairs the numbers after the colons race by race |
| Day06Part1.ParseTwoFields | day-06/src/bin/part-1.rs:48-84 | two `header:numbers` lines parse into the races zipped from their numbers |
| Day06Part1.SampleCounts | day-06/src/bin/part-1.rs:129-136 | the sample races are won in 4, 8 and 9 ways |
| Day06Part1.SampleProduct | day-06/src/bin/part-1.rs:129-136 | their product is 288 |
| Day06Part1.SampleParse | day-06/src/bin/part-1.rs:105-127 | the two sample lines parse into races 7/9, 15/40 and 30/200 |
| Day06Part1.Part1 | day-06/src/bin/part-1.rs:29-36 | the answer exists exactly when both lines hold a colon, and it is 0 exactly when some parsed race cannot be won |
| Day06Part1.SampleInput | day-06/src/bin/part-1.rs:129-136 | the two sample lines answer 288 |
| Day06Part2.Joined | day-06/src/bin/part-2.rs:65-67 | joining the captured groups gives a string of digits |
| Day06Part2.JoinedValue | day-06/src/bin/part-2.rs:65-67 | the joined string is empty exactly when there are no groups, and otherwise extends the join of all but the last group by the last |
| Day06Part2.JoinedNumber | day-06/src/bin/part-2.rs:65-85 | a number is read exactly when the text holds some digit, and it is the value of all its digit groups joined |
| Day06Part2.ParseInput2 | day-06/src/bin/part-2.rs:54-86 | parsing succeeds exactly when both lines hold a colon followed by some digit, giving one race of the joined numbers |
| Day06Part2.ParseTwoJoined | day-06/src/bin/part-2.rs:54-86 | two `header:numbers` lines parse into the race of their joined numbers |
| Day06Part2.Part2 | day-06/src/bin/part-2.rs:38-42 | the answer exists exactly when the one race parses, and it is 0 or below the race time |
| Day06Part2.SampleRace | day-06/src/bin/part-2.rs:107-128 | the sample lines parse into the race 71530/940200, won in 71503 ways |
| Day06Part2.SampleHolds | day-06/src/bin/part-2.rs:121-128 | the race 71530/940200 is won in 71503 ways |
| Day07Part2.Rank | day-07/src/bin/part-02.rs:3-18 | every card has a value from 1 to 14, and 1 is the jack's alone |
| Day07Part2.RankInjective | day-07/src/bin/part-02.rs:3-18 | no two cards share a value |
| Day07Part2.TypeRank | day-07/src/bin/part-02.rs:102-111 | every hand type has a value from 1 to 7 |
| Day07Part2.NonJokerOfRankOf | day-07/src/bin/part-02.rs:3-18 | a card other than the jack is recovered from its value |
| Day07Part2.CountsFrom | day-07/src/bin/part-02.rs:28-36 | the counts of the non-joker cards present, by card value, are all positive |
| Day07Part2.GroupSnoc | day-07/src/bin/part-02.rs:30-36 | adding one card raises the count of its own value by one, and starts a new group only for a non-joker card not yet seen |
| Day07Part2.CountsFromSnoc | day-07/src/bin/part-02.rs:30-36 | one more card adds one to the sum of the non-joker counts and one new entry exactly when it is a new non-joker card |
| Day07Part2.CountsTotal | day-07/src/bin/part-02.rs:28-36 | the non-joker counts and the jokers add up to the number of cards |
| Day07Part2.EmptyCounts | day-07/src/bin/part-02.rs:28 | no cards give no counts |
| Day07Part2.ValuesAreCounts | day-07/src/bin/part-02.rs:44 | the values of the count map, by card value, are the non-joker counts |
| Day07Part2.InsertContents | day-07/src/bin/part-02.rs:45 | inserting keeps every count and adds the new one |
| Day07Part2.InsertSorted | day-07/src/bin/part-02.rs:45 | inserting into a sorted list keeps it sorted |
| Day07Part2.SortNatsSpec | day-07/src/bin/part-02.rs:45 | sorting the counts gives an ascending permutation of them |
| Day07Part2.SortedNatsUnique | day-07/src/bin/part-02.rs:45 | two ascending permutations of the same counts are equal |
| Day07Part2.LengthAtMostSum | day-07/src/bin/part-02.rs:38-72 | there are no more distinct cards than cards counted |
| Day07Part2.TableIsJokerRule | day-07/src/bin/part-02.rs:38-72 | for any ascending positive counts summing with the jokers to five, the match never panics and gives the type of the largest group joined by all the jokers |
| Day07Part2.TableTwo | day-07/src/bin/part-02.rs:43-56 | the two-group arm answers the joker rule |
| Day07Part2.TableThree | day-07/src/bin/part-02.rs:57-68 | the three-group arm answers the joker rule |
| Day07Part2.CountMapCounts | day-07/src/bin/part-02.rs:28-36 | the map holds exactly the non-joker cards present, each with its count, and one entry per distinct one |
| Day07Part2.CountMapStep | day-07/src/bin/part-02.rs:30-36 | one turn of the loop keeps the map's counts exact |
| Day07Part2.TableOfCountMap | day-07/src/bin/part-02.rs:27-73 | for five cards the match on the map's size and sorted values gives the joker-rule type |
| Day07Part2.HandTypeOf | day-07/src/bin/part-02.rs:27-73 | the counting loop and the match return the joker-rule type of the hand |
| Day07Part2.JokersAreWild | day-07/src/bin/part-02.rs:41 | five jokers are five of a kind |
| Day07Part2.JokersJoinPair | day-07/src/bin/part-02.rs:42 | three jokers and a pair of twos are five of a kind |
| Day07Part2.CardsLessAt | day-07/src/bin/part-02.rs:90-96 | the first differing card decides the order |
| Day07Part2.CardsLessAsymmetric | day-07/src/bin/part-02.rs:90-96 | card order is asymmetric |
| Day07Part2.CardsLessTransitive | day-07/src/bin/part-02.rs:90-96 | card order is transitive |
| Day07Part2.CardsLessTotal | day-07/src/bin/part-02.rs:90-96 | any two different card sequences of equal length are ordered one way |
| Day07Part2.HandLessStrictTotal | day-07/src/bin/part-02.rs:82-100 | hand order is irreflexive, asymmetric, transitive and total on distinct hands of equal size |
| Day07Part2.Compare | day-07/src/bin/part-02.rs:82-100 | the comparison panics exactly on equal cards, answers Less or Greater exactly as the hand order says, and never Equal |
| Day07Part2.InsertBy | day-07/src/bin/part-02.rs:123 | inserting into a sorted list keeps it sorted and adds exactly the new element |
| Day07Part2.SortBy | day-07/src/bin/part-02.rs:123 | sorting gives a sorted permutation |
| Day07Part2.SortedUnique | day-07/src/bin/part-02.rs:123 | under a strict total order the sorted permutation is unique |
| Day07Part2.ByHandStrict | day-07/src/bin/part-02.rs:82-100 | hand order is a strict order |
| Day07Part2.ByHandComparable | day-07/src/bin/part-02.rs:82-100 | hands with distinct cards are pairwise ordered |
| Day07Part2.Part2 | day-07/src/bin/part-02.rs:120-130 | the answer exists exactly when every line is a hand and no two hands hold the same cards, and it is bid times rank summed over every sorted arrangement of the hands |
| Day07Part2.TotalWinnings | day-07/src/bin/part-02.rs:120-130 | the sum is defined exactly when no two hands have equal cards, and then equals bid times rank over every sorted arrangement of the hands |
| Day07Part2.ParseCard | day-07/src/bin/part-02.rs:132-149 | a character parses exactly when it is one of the thirteen card letters, and then to the card that letter names |
| Day07Part2.ParseCardIffCardChar | day-07/src/bin/part-02.rs:132-149 | a character parses to a card exactly when it is that card's letter |
| Day07Part2.ParseCards | day-07/src/bin/part-02.rs:151-160 | cards parse exactly when there are five card letters, one card per letter |
| Day07Part2.CardsText | day-07/src/bin/part-02.rs:151-160 | writing cards gives one letter per card |
| Day07Part2.ParseHand | day-07/src/bin/part-02.rs:162-173 | a line is a hand exactly when its first space-separated piece is five card letters and its second a number; the cards then spell the first piece and the bid is the second |
| Day07Part2.CardsSpellPiece | day-07/src/bin/part-02.rs:151-160 | the cards parse_cards reads spell back the text they were read from |
| Day07Part2.ParseHandRoundTrip | day-07/src/bin/part-02.rs:162-173 | every five-card hand written as a line parses back to itself |
| Day07Part2.ParseHands | day-07/src/bin/part-02.rs:121 | every line parses to one five-card hand in order, and a failure names a line that does not parse |
| Day07Part2.ParseHandExample | day-07/src/bin/part-02.rs:179-192 | `32T3K 765` parses to three, two, ten, three, king with bid 765 |
| Day07Part2.CountsOfAt | day-07/src/bin/part-02.rs:28-36 | listing the counts of given cards gives one count per card |
| Day07Part2.CountsFromPresent | day-07/src/bin/part-02.rs:28-36 | when the given cards are exactly the non-joker cards present, in value order, their counts are the counts from the hand |
| Day07Part2.JokerTypeOfPresent | day-07/src/bin/part-02.rs:27-73 | the type follows from the counts of the cards present and the jokers |
| Day07Part2.TypeOfFourThrees | day-07/src/bin/part-02.rs:194-199 | 33332 is four of a kind |
| Day07Part2.TypeOfFourAces | day-07/src/bin/part-02.rs:194-199 | 2AAAA is four of a kind |
| Day07Part2.OrderingExample | day-07/src/bin/part-02.rs:194-199 | 33332 ranks above 2AAAA |
| Day07Part2.TypeOf32T3K | day-07/src/bin/part-02.rs:203 | 32T3K is one pair |
| Day07Part2.TypeOfT55J5 | day-07/src/bin/part-02.rs:204 | T55J5 is four of a kind |
| Day07Part2.TypeOfKK677 | day-07/src/bin/part-02.rs:205 | KK677 is two pair |
| Day07Part2.TypeOfKTJJT | day-07/src/bin/part-02.rs:206 | KTJJT is four of a kind |
| Day07Part2.TypeOfQQQJA | day-07/src/bin/part-02.rs:207 | QQQJA is four of a kind |
| Day08Part1.Step | day-08/src/bin/part-1.rs:11-17 | a step succeeds exactly for `L` and `R`, going left on `L` and right on `R` |
| Day08Part1.ParseNode | day-08/src/bin/part-1.rs:58-64 | a line of at least 15 characters yields a node of three-character id, left and right |
| Day08Part1.ParseNodeText | day-08/src/bin/part-1.rs:58-64 | every node of three-character names written as `AAA = (BBB, CCC)` parses back to itself |
| Day08Part1.ParseNodeExample | day-08/src/bin/part-1.rs:70-76 | `AAA = (BBB, CCC)` has left BBB and right CCC |
| Day08Part1.ParseInput | day-08/src/bin/part-1.rs:28-39 | the input parses exactly when it has a first line and every line after the blank one is long enough; the directions are the first line and there is one node per later line, in order |
| Day08Part1.ParseNodes | day-08/src/bin/part-1.rs:36-39 | every node line parses, one node per line, in order |
| Day08Part1.NodeMap | day-08/src/bin/part-1.rs:34-39 | the table holds exactly the ids of the nodes, each under its own id |
| Day08Part1.NodeMapLatest | day-08/src/bin/part-1.rs:38 | a later node with the same id replaces an earlier one |
| Day08Part1.BuildNodes | day-08/src/bin/part-1.rs:34-39 | the insertion loop builds that table |
| Day08Part1.PhaseNext | day-08/src/bin/part-1.rs:44-55 | the direction index advances by one and wraps to 0 after the last direction |
| Day08Part1.PhaseAfterRounds | day-08/src/bin/part-1.rs:44-55 | after whole rounds of directions, step i of the next round reads direction i |
| Day08Part1.PanicPersists | day-08/src/bin/part-1.rs:48 | once a step hits a missing node, every later position is missing too |
| Day08Part1.Walk | day-08/src/bin/part-1.rs:41-55 | the walk returns the first step count of at least one that reaches ZZZ from AAA, or fails exactly at the first step whose node is missing |
| Day08Part1.Part1 | day-08/src/bin/part-1.rs:27-56 | an answer comes only from parsed input and is the first step count that reaches ZZZ |
| Day08Part1.NodeMapDistinct | day-08/src/bin/part-1.rs:34-39 | with distinct ids every node is found under its own id |
| Day08Part1.SampleOne | day-08/src/bin/part-1.rs:78-91 | with directions RL the first sample network reaches ZZZ first after 2 steps |
| Day08Part1.SampleTwo | day-08/src/bin/part-1.rs:93-102 | with directions LLR the second sample network reaches ZZZ first after 6 steps |
| Day08Part2.LoopLength | day-08/src/bin/part-2.rs:96-98 | the loop length plus the loop start is the total length |
| Day08Part2.ValidAfterLoops | day-08/src/bin/part-2.rs:100-105 | after n loops there is one index per finish index, ascending finish indexes stay ascending, and zero loops change nothing |
| Day08Part2.FirstRepeatUnique | day-08/src/bin/part-2.rs:112-139 | the step at which the walk first repeats a recorded entry is unique |
| Day08Part2.FinishIndexes | day-08/src/bin/part-2.rs:123-133 | the finish indexes are exactly the recorded positions on an id ending in `Z`, ascending |
| Day08Part2.DescribesWellShaped | day-08/src/bin/part-2.rs:119-134 | a returned sequence has a loop start no later than its total length |
| Day08Part2.RecordedPush | day-08/src/bin/part-2.rs:136 | pushing a new entry keeps the record equal to the entries of the walk so far |
| Day08Part2.RecordedRepeat | day-08/src/bin/part-2.rs:117-134 | when the new entry is already recorded, the sequence built describes the walk's first repeat |
| Day08Part2.RecordedPanic | day-08/src/bin/part-2.rs:114 | when the walk reaches a missing node before any repeat, no first repeat exists |
| Day08Part2.WalkPass | day-08/src/bin/part-2.rs:113-138 | one pass over the directions either returns the sequence of the first repeat, or shows that the walk panics, or records one more round of the walk |
| Day08Part2.CreateSequence | day-08/src/bin/part-2.rs:108-141 | the sequence returned describes the walk up to its first repeat within 100 rounds, and none is returned only when there are no directions or no repeat within 100 rounds |
| Day08Part2.Elements | day-08/src/bin/part-2.rs:64-66 | the set of a list holds exactly its elements |
| Day08Part2.ValidBelowMembers | day-08/src/bin/part-2.rs:59-67 | a ghost's valid set after loops 0 to K-1 holds exactly its finish indexes moved on by fewer than K loop lengths |
| Day08Part2.Intersect | day-08/src/bin/part-2.rs:69-77 | the intersection holds exactly the values in every set, and nothing when there are no sets |
| Day08Part2.SetsBelow | day-08/src/bin/part-2.rs:52-55 | there is one valid set per ghost |
| Day08Part2.SetMin | day-08/src/bin/part-2.rs:81 | the minimum of a non-empty set is in it and at most every member |
| Day08Part2.AddLoop | day-08/src/bin/part-2.rs:59-67 | one round adds each ghost's finish indexes for the new loop count to its valid set |
| Day08Part2.IntersectAll | day-08/src/bin/part-2.rs:69-77 | the folding loop computes the intersection of the valid sets |
| Day08Part2.FirstCommon | day-08/src/bin/part-2.rs:57-85 | the loop returns the minimum of the first non-empty intersection |
| Day08Part2.Ghosts | day-08/src/bin/part-2.rs:41-85 | for every start in some order the answer is the first common minimum of their sequences, and none only when some start has no repeat within 100 rounds |
| Day08Part2.Part2 | day-08/src/bin/part-2.rs:27-86 | an answer comes only from parsed input and is the first common minimum of the ghosts' sequences |
| Day08Part2.SameStateSameFuture | day-08/src/bin/part-2.rs:108-141 | two positions with the same node and the same next direction have the same future |
| Day08Part2.LoopBack | day-08/src/bin/part-2.rs:96-98 | past the total length, the walk repeats what it did one loop length earlier |
| Day08Part2.IntendedNeverPanics | day-08/src/bin/part-2.rs:108-141 | a walk that returns to an earlier state never reaches a missing node |
| Day08Part2.LoopRepeats | day-08/src/bin/part-2.rs:100-105 | inside the loop, moving on by whole loop lengths reaches the same node |
| Day08Part2.FixedValidIsZStep | day-08/src/bin/part-2.rs:100-105 | every step in the corrected valid set puts the ghost on an id ending in `Z` |
| Day08Part2.ZStepIsFixedValid | day-08/src/bin/part-2.rs:100-105 | every step that puts the ghost on an id ending in `Z` is in the corrected valid set for enough loops |
| Day08Part2.LaterRoundLarger | day-08/src/bin/part-2.rs:57-85 | a step added in a later round is larger than every step already in the set |
| Day08Part2.FixedValidGrows | day-08/src/bin/part-2.rs:59-67 | the corrected valid sets only grow with the loop count |
| Day08Part2.FixedFirstCommonIsEarliest | day-08/src/bin/part-2.rs:57-85 | with correctly built sequences, the corrected loop's answer puts every ghost on an id ending in `Z`, and no earlier step does |
| Day08Part2.FixedCommonReached | day-08/src/bin/part-2.rs:57-85 | every step that puts all ghosts on an id ending in `Z` shows up in the corrected intersection after enough rounds |
| Day08Part2.StartEntryMislabelled | day-08/src/bin/part-2.rs:110 | with directions LR and 11A = (11A, 11Z) the start's entry counts as repeated after one step, so the intersection loop never ends though the ghost is on 11Z after two steps |
| Day08Part2.LoopStartMisplaced | day-08/src/bin/part-2.rs:122 | with directions L and the chain 11A, 11B, 11C, 11Z back to 11C the loop start is taken as 1 instead of 2, so step 5 on 11Z never enters any valid set |
| Day08Part2.TailFinishRepeats | day-08/src/bin/part-2.rs:100-105 | with directions LL and 11A to 11Z to a loop on 11B, the finish index 1 before the loop is moved on to 3, where the ghost is on 11B |
| Day09Part1.ParseInt | day-09/src/bin/part-1.rs:19 | a token parses exactly when it is digits, optionally after one sign |
| Day09Part1.ParseShowInt | day-09/src/bin/part-1.rs:19 | every integer written in decimal parses back to itself |
| Day09Part1.ParseLine | day-09/src/bin/part-1.rs:16-21 | a line parses exactly when every token does, one number per token, in order |
| Day09Part1.ParseLineExample | day-09/src/bin/part-1.rs:125-130 | `0 3 6 9 12 15` parses to those six numbers |
| Day09Part1.Integrate | day-09/src/bin/part-1.rs:31-34 | summing differences from a first value gives one more value than differences, starting with that value |
| Day09Part1.IntegrateDifferences | day-09/src/bin/part-1.rs:31-34 | the first value and the differences recover the readings |
| Day09Part1.DifferencesIntegrate | day-09/src/bin/part-1.rs:31-34 | the differences of summed differences are those differences |
| Day09Part1.DeriveDifferenceVector | day-09/src/bin/part-1.rs:23-37 | no differences exactly for fewer than two readings or all zero; otherwise the pairwise differences in order |
| Day09Part1.DifferenceRowsShape | day-09/src/bin/part-1.rs:39-54 | the table starts with the readings, each next row is the differences of the one before, only the last row is short or all zero, and each row is one shorter than the one above |
| Day09Part1.DeriveDifferenceVectors | day-09/src/bin/part-1.rs:39-54 | the loop builds exactly that table |
| Day09Part1.PredictNextValue | day-09/src/bin/part-1.rs:56-63 | the sum of the last values fails exactly for no rows or an empty row |
| Day09Part1.PredictOne | day-09/src/bin/part-1.rs:56-63 | a single row predicts its last value |
| Day09Part1.PredictCons | day-09/src/bin/part-1.rs:56-63 | one more row on top adds its last value to the prediction |
| Day09Part1.NextExtends | day-09/src/bin/part-1.rs:39-63 | a prediction exists exactly for a non-empty history; a short or all-zero history repeats its last value; otherwise the prediction is the last value plus the differences' prediction, and appending it extends the differences by their own prediction |
| Day09Part1.ConstantStepContinues | day-09/src/bin/part-1.rs:39-63 | readings with a constant step c predict the last reading plus c |
| Day09Part1.RowsZero | day-09/src/bin/part-1.rs:25 | an all-zero history is its own table and predicts 0 |
| Day09Part1.FirstTable | day-09/src/bin/part-1.rs:69-90 | 0 3 6 9 12 15 has differences 3 3 3 3 3, the three-row table of the test, and predicts 18 |
| Day09Part1.SecondTable | day-09/src/bin/part-1.rs:92-106 | 1 3 6 10 15 21 has the four-row table of the test |
| Day09Part1.SecondNext | day-09/src/bin/part-1.rs:109-123 | 1 3 6 10 15 21 predicts 28 |
| Day09Part1.ThirdTable | day-09/src/bin/part-1.rs:132-139 | 10 13 16 21 30 45 predicts 68 |
| Day09Part1.PredictExample | day-09/src/bin/part-1.rs:109-123 | the four rows of the test sum to the prediction 28 |
| Day09Part1.Part1 | day-09/src/bin/part-1.rs:7-14 | the sum of predictions exists exactly when no history is empty |
| Day09Part1.Part1Three | day-09/src/bin/part-1.rs:7-14 | three histories sum their three predictions |
| Day09Part1.Part1Sample | day-09/src/bin/part-1.rs:132-139 | the three sample histories sum to 114 |
| Day10Part1.ParsePipe | day-10/src/bin/part-1.rs:41-69 | a character is a pipe exactly when it is one of the six pipe characters, each pipe joins two different directions, and the vertical bar joins up and down |
| Day10Part1.ParsePipeInverse | day-10/src/bin/part-1.rs:41-69 | the pipe characters and the pipes they name correspond one to one |
| Day10Part1.ParseTileItem | day-10/src/bin/part-1.rs:71-78 | a character is a tile exactly when it is a pipe, `.` or `S`; `.` is ground, `S` the start, and a pipe character gives its pipe |
| Day10Part1.IsGridOfUnique | day-10/src/bin/part-1.rs:94-111 | a sketch has at most one grid |
| Day10Part1.ParseGrid | day-10/src/bin/part-1.rs:94-111 | the grid exists exactly when every character is a tile, and then holds one tile per character, keyed by its row and column and made of that character |
| Day10Part1.ParseRow | day-10/src/bin/part-1.rs:98-107 | one row either fails on a character that is not a tile, or adds exactly the tiles of that row, each keyed by its position and made of its character |
| Day10Part1.ParseGridExample | day-10/src/bin/part-1.rs:153-184 | `.F-` gives ground at (0, 0), F at (0, 1) and - at (0, 2) |
| Day10Part1.Probe | day-10/src/bin/part-1.rs:120-122 | a lookup finds at most one tile |
| Day10Part1.AdjacentTiles | day-10/src/bin/part-1.rs:113-147 | the tiles collected are the neighbours probed up, down, left and right, in that order, under the row and column bound of 4 |
| Day10Part1.BoundedNeighboursInGrid | day-10/src/bin/part-1.rs:113-147 | at most four tiles are collected, each a grid tile next to the given position |
| Day10Part1.NeighboursExact | day-10/src/bin/part-1.rs:113-147 | without the bound, the tiles collected are exactly the grid tiles next to the position |
| Day10Part1.BoundedAgreesInSample | day-10/src/bin/part-1.rs:125-139 | on a sketch of at most five rows of at most five tiles, the bounded lookup agrees with the true neighbours at every position |
| Day10Part1.BoundMissesLowerRow | day-10/src/bin/part-1.rs:125 | in a six-row sketch the tile at row 5 is not collected as a neighbour of row 4, though it is adjacent |

## Left out

- Every `main` is left out: loading the puzzle input with `include_str!` and printing with `println!`. The `Display` impls and the commented-out debug prints are formatting only.
- The `regex` crate is modelled by what each pattern extracts:
  - day 1 part 2: the anchored digit-or-word prefix match;
  - day 2: the header `Game N:` and the `N colour` matches, read from the line;
  - day 3: the maximal digit runs and the symbol or `*` cells;
  - day 6: the digit groups.
- Library tokenising (`lines`, `split`, `split_whitespace`, `str::parse`) is written out where the proofs need the text, using the decimal reader and separator split of `Common`. Elsewhere lines arrive already split:
  - day 5 rule lines arrive as lists of parsed numbers, with a blank line as the empty list;
  - day 9 lines arrive as lists of tokens.
- The decimal reader accepts digits only. Rust's integer parsing also accepts a leading `+`; the signed reader of day 9 accepts both signs.
- Input is assumed to be ASCII. Unicode `\d`, and the byte slicing of day 1 part 2 that would panic inside a multi-byte character, are not modelled.
- Machine integers are unbounded `nat`/`int`, so no overflow is modelled:
  - the `u64` sums `source_start + range` of day 5;
  - the `i32` sums of days 1 to 3;
  - the products of days 2 and 6;
  - `2^(m-1)` of day 4;
  - bid times rank in day 7;
  - `i + loops * loop_length` in day 8 part 2;
  - the `i64` differences, sums and parsed values of day 9, which the source would wrap or panic on beyond 64 bits.
- Out-of-range numbers in the text are not modelled where the source unwraps the parse. Each such parse panics on a number beyond its integer type, and the model reads the number as it is:
  - day 2: the game id and the cube counts (`i32`);
  - day 3: the part numbers (`i32`);
  - day 5: the seeds and the rule numbers (`u64`);
  - day 6: the times and distances (`u64`), and in part 2 the number joined from all digit groups (`u64`, day-06/src/bin/part-2.rs:81), which overflows first;
  - day 7: the bids (`u32`);
  - day 9: the values (`i64`).
- Day 4 is the exception: its `.ok()` drops a number beyond `u32` from the card, and the model does the same (`Day04Part1.ParseU32`).
- `HashMap`, `HashSet` and `BTreeMap` are Dafny maps and sets, and their iteration order is not modelled. Day 8 part 2 therefore takes its starting ids in any order, and its contracts hold for every order.
- The library sort of day 7 is specified as any sorted permutation under `Hand::cmp`; its algorithm and the in-place update of the vector are not modelled.
- `part1` of day 10 is `todo!()` and is not modelled. Neither is the walk around the loop that it would compute.
- The test inputs of days 1, 2 and 3 (`test-input*.txt`) are not part of this model, so the sums their tests expect (142, 281, 8, 2286, 4361 and 467835) are not restated.
- Three whole-input samples are not proved, because the verifier cannot finish them within its resource limit:
  - 46 for day 5 part 2 (its parts are proved: the seed pairs and one stage on 0..100);
  - 5905 for day 7 (the five hand types and the ordering test are proved);
  - 6 for day 8 part 2.
- The day 4 samples are proved on card lines written with single spaces and no indentation. The test's double spaces are covered by `Day04Part1.BlankTokenSkipped`.
- Day05Part1.ParseSeeds: only the `seeds:` line is read; the line after it and the headers between the blocks, which `part1` skips, are not modelled.
- Day05Part2.MapRanges: requires every rule of the stage to have a non-empty source. Against a rule 5..5, the range 5..10 falls in the `Spans` case, which pushes 5..10 back unchanged, so the source loops forever.
- Day08Part1.Walk: requires that the walk reaches ZZZ or a missing node. Otherwise the source loops forever.
- Day08Part1.Part1: states what an answer means, but not when the answer is missing (a malformed line or a missing node).
- Day08Part2.Ghosts: requires that there is a start and that, for every order of the starts, some round finds a common step. Otherwise the source loops forever.
- Day08Part2.Part2: states what an answer means, but not when the answer is missing.
- Day08Part2.CreateSequence: the panic after 100 rounds without a repeat is the result None.
- Day06Part1.WinsInterval: takes the first winning hold as a parameter rather than computing it.

## Findings

| source | as written | input that shows it | evidently intended | confidence | as-written member | corrected member |
|---|---|---|---|---|---|---|
| day-05/src/bin/part-2.rs:66-74 | the Spans case pushes back the empty range `source.end..input.end` when the ends coincide, and it reaches the outputs as an empty range whose start takes part in the minimum | seeds 0..5 with rules 3..5 to 100..102 and 0..3 to 200..203 give 5, though every seed's location is at least 100 | the lowest location of any seed value, ignoring empty ranges | not executed; high | Day05Part2.EmptyPieceLowersMinimum | Day05Part2.Part2NonEmptyIsLowestLocation |
| day-05/src/bin/part-1.rs:20 | a rule matches `source_start + range`, one past its last source value | rule `50 98 2` maps 100 to 52 | the half-open test that part 2 uses, leaving 100 unchanged | not executed; high | Day05Part1.InclusiveEndMapsOnePast | Day05Part1.MapRangeValueHalfOpen |
| day-08/src/bin/part-2.rs:110 | the start is recorded under direction index 0, the index of the positions reached by direction 0, although the walk leaves it by direction 0 | directions LR with 11A = (11A, 11Z): the first step already counts as a repeat, so the intersection loop never ends, though the ghost is on 11Z after two steps | the loop is found where the walk repeats its state (node and next direction) | not executed; medium | Day08Part2.StartEntryMislabelled | Day08Part2.FixedFirstCommonIsEarliest |
| day-08/src/bin/part-2.rs:122 | the loop start is taken as the direction index plus one, not as the position of the repeated entry | directions L with 11A, 11B, 11C, 11Z and 11Z back to 11C: the loop start is 1 instead of 2, and step 5, on 11Z, never enters any valid set | the loop starts at the position of the repeated entry | not executed; medium | Day08Part2.LoopStartMisplaced | Day08Part2.FixedCommonReached |
| day-08/src/bin/part-2.rs:100-105 | finish indexes before the loop are moved on by whole loops too | directions LL with 11A to 11Z and then a loop on 11B: the finish index 1 is moved on to 3, where the ghost is on 11B | finish indexes before the loop happen once | not executed; medium | Day08Part2.TailFinishRepeats | Day08Part2.FixedValidIsZStep |
| day-10/src/bin/part-1.rs:125 | a neighbour below or to the right is looked at only while the row or column is below 4, which fits the five-by-five test grid only | in a six-row sketch, the tile at row 5 is not a neighbour of row 4 | the grid itself bounds the search | not executed; medium | Day10Part1.BoundMissesLowerRow | Day10Part1.NeighboursExact |
