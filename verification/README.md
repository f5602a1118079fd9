# Advent of Code 2023 puzzle solvers, modelled in Dafny

This project models the puzzle solvers of an Advent of Code 2023 repository.
Each solver reads one puzzle input file and prints one number.

- **Day 5, the almanac** (the centrepiece): seed numbers pass through a chain of rule tables. Each rule moves a half-open source range onto a destination range of the same length, and a value that no rule matches keeps its number. Part one pushes single seeds through the tables. Part two pushes whole seed ranges: every stage splits every range against every rule into the piece before the rule's source, the overlap and the piece after it. Overlaps are shifted into the destination, and the two outer pieces go on to the next rule.
- **Day 7, camel cards**: poker-like hands where `J` is a joker. A hand is classified by its card counts, ordered by type and then card by card, and hands earn their bid times their rank.
- **Day 4, scratchcards**: winning numbers and picked numbers, points that double with every match, and a cascade in which each ticket wins copies of the tickets that follow it.
- **Day 3, gear ratios**: an engine schematic whose digit runs are part numbers. A part counts when a symbol touches one of its digits.
- **Day 9, mirage maintenance**: a history is extrapolated by repeated differences.
- **Day 2, cube conundrum**: games of cube draws, the bag limits, and the power of the minimal bag.
- **Day 8, haunted wasteland**: a walk over a node network driven by cyclic left/right instructions.
- **Day 1, trebuchet**: first and last digits of every line.

## Layout

Module names follow the puzzles' titles.

- `Wrappers` holds `Option`, `Result` and a few helpers: mapping a partial function over a list, and building a map entry by entry with the last entry winning.
- `Text` gives Rust's `split` on one character, `split(' ')` with the empty pieces filtered out (`Words`), `trim`, and integer parsing without a width limit, with their round-trip laws. There is no `split_whitespace`: the solvers split on single spaces.

Panics of the source become `None` or `Err` results rather than preconditions. Loops become methods with invariants, and each method is proved against a specification function. The properties of each puzzle are stated in lemmas about those functions.

## Model

| member | source | states |
|---|---|---|
| Intervals.Overlap | day5/src/main.rs:92-99 | on well-formed ranges the overlap is a well-formed range inside the first range; a non-empty overlap also lies inside the second |
| Intervals.OverlapIsIntersection | day5/src/main.rs:93-99 | the overlap of two well-formed ranges holds exactly the values both hold |
| Intervals.DisjointOverlapEmpty | day5/src/main.rs:94-98 | disjoint ranges, and ranges that only touch at an end despite the `>=` guard, have an empty overlap; touching ranges give the empty range at the shared end |
| Intervals.SplitPartitions | day5/src/main.rs:223-237 | the piece before the overlap, the overlap and the piece after it hold exactly the values of the range, and their lengths add up to its length |
| Almanac.ParseRule | day5/src/main.rs:52-68 | a rule line is accepted exactly when its trimmed, space-separated tokens are three integers; destination and source have the same length |
| Almanac.RuleOfNumbers | day5/src/main.rs:60-67 | anything but exactly three numbers is refused |
| Almanac.ParseRuleLine | day5/src/main.rs:52-68 | a printed line `dst src len` reads back as destination `[dst, dst+len)` and source `[src, src+len)` |
| Almanac.ParseRuleTokens | day5/src/main.rs:54-67 | three integer tokens give the rule with destination from the first and source from the second, both of the third's length |
| Almanac.RuleOfThree | day5/src/main.rs:64-67 | numbers `x y z` give destination `[x, x+z)` and source `[y, y+z)` |
| Almanac.ParseRuleTwoNumbers | day5/src/main.rs:60-62 | a line with only two numbers is refused |
| Almanac.Translate | day5/src/main.rs:70-77 | a rule translates a value exactly when its source contains it, keeping the value's distance from the range start; the result lies in the destination |
| Almanac.FirstMatchIsFirst | day5/src/main.rs:125-133 | there is no match exactly when no source contains the value; otherwise the result is the translation by the first rule, in order, whose source contains it |
| Almanac.TranslateValue | day5/src/main.rs:125-133 | the loop returns the first matching rule's translation, and the value unchanged when no rule matches |
| Almanac.LowestLocation | day5/src/main.rs:178-195 | no answer exactly when there are no seeds; otherwise the answer is the location of some seed and at most the location of every seed |
| Almanac.FirstMatch | day5/src/main.rs:125-133 | no contract; the translation by the first rule, in table order, whose source holds the value, or nothing; `FirstMatchIsFirst` characterises it |
| Almanac.MappingTranslate | day5/src/main.rs:125-133 | no contract; `translate` of one table: the first match, or the value itself; `TranslateValue` is the loop proved equal to it |
| Almanac.RemapPoint | day5/src/main.rs:185-191 | no contract; a seed pushed through every table in order, the point semantics the part-two lemmas compare the range engine against |
| RangeRemap.KeepFacts | day5/src/main.rs:225-237 | a guarded push stores only non-empty ranges and loses no value or length of a well-formed range |
| RangeRemap.PiecesNonEmpty | day5/src/main.rs:226-236 | the matched piece and the leftovers of one range against one rule are all non-empty |
| RangeRemap.PiecesOfRange | day5/src/main.rs:218-237 | the leftovers hold exactly the range's values outside the rule source; the matched piece holds exactly the shifted values inside it; lengths add up |
| RangeRemap.NoOverlapCarried | day5/src/main.rs:223-237 | a non-empty range that misses the rule's source passes to the leftovers unchanged and converts nothing |
| RangeRemap.AllPiecesNonEmpty | day5/src/main.rs:222-239 | one rule against the whole working list stores only non-empty ranges |
| RangeRemap.RuleStep | day5/src/main.rs:216-241 | after one rule the leftovers hold exactly the working values outside its source, and the converted pieces hold the shifted values inside it; total length is kept |
| RangeRemap.StageNonEmpty | day5/src/main.rs:242-244 | converted ranges are non-empty; a stage's output is all non-empty when it has a rule or its input was |
| RangeRemap.LeftoversWellFormed | day5/src/main.rs:225-237 | the leftovers are well-formed ranges |
| RangeRemap.StageLength | day5/src/main.rs:211-245 | one stage conserves the total length of its input |
| RangeRemap.StageForward | day5/src/main.rs:125-133 | every value of an input range is carried by a stage to its point translation, which some output range holds |
| RangeRemap.TranslateFirstRule | day5/src/main.rs:126-132 | point translation uses the first rule when it matches, and otherwise the remaining rules |
| RangeRemap.MatchedBackward | day5/src/main.rs:216-241 | every value of an overlap shifted by the first rule is that stage's point translation of some input value |
| RangeRemap.StageBackward | day5/src/main.rs:211-245 | every value of a stage's output is the point translation of some input value |
| RangeRemap.RemapExact | day5/src/main.rs:211-245 | for rules and ranges of non-negative length, across all stages, the output ranges hold exactly the point translations of the input values; total length is conserved and non-empty input stays non-empty |
| RangeRemap.MinByStart | day5/src/main.rs:247 | no result exactly for an empty list; otherwise a listed range whose start is least |
| RangeRemap.MinByStartFirst | day5/src/main.rs:247 | the range chosen is a member of the list |
| RangeRemap.LowestStartIsLowestLocation | day5/src/main.rs:198-248 | for non-empty seed ranges and rules of non-negative length, part two's least start is the least location part one's point translation gives any seed value of the ranges; there is none exactly when there are no seed ranges |
| RangeRemap.LowestLocationFromEmptyPairs | day5/src/main.rs:198-248 | for rules of non-negative length, with seed pairs of length zero allowed and a first stage that has a rule, the least start is still the least location of any seed value, and there is none exactly when no seed value is covered |
| RangeRemap.SeedPairs | day5/src/main.rs:205-209 | seed numbers pair up exactly when there is an even number of them, pair `i` giving `[seeds[2i], seeds[2i]+seeds[2i+1])` |
| RangeRemap.SeedPairsCover | day5/src/main.rs:205-209 | the seed ranges hold exactly the values some pair describes |
| RangeRemap.SeedPairAt | day5/src/main.rs:206-208 | range `i` starts at seed `2i` and is as long as seed `2i+1` |
| RangeRemap.ApplyMapping | day5/src/main.rs:211-245 | the stage loop produces the converted pieces followed by what is still unconverted after the last rule |
| RangeRemap.SplitAgainstRule | day5/src/main.rs:216-240 | one rule appends the matched pieces of every working range to the converted list and collects the leftovers in order |
| RangeRemap.SplitRange | day5/src/main.rs:222-238 | one working range adds its shifted overlap to the converted list and its non-empty outer pieces to the new working list |
| RangeRemap.LowestSeedRange | day5/src/main.rs:198-248 | an odd number of seeds is an error; otherwise the result is the first range of least start after all stages |
| RangeRemap.LowestStart | day5/src/main.rs:247 | the closing scan returns the first range of least start |
| RangeRemap.Matched | day5/src/main.rs:223-232 | no contract; the overlap of a range with a rule source, shifted by the offset and kept when non-empty; `PiecesOfRange` states what it holds |
| RangeRemap.Leftovers | day5/src/main.rs:223-238 | no contract; the non-empty pieces before and after the overlap; `PiecesOfRange` states what they hold |
| RangeRemap.MatchedAll | day5/src/main.rs:222-240 | no contract; the shifted overlaps of every working range with one rule, in order; `RuleStep` characterises them |
| RangeRemap.LeftoversAll | day5/src/main.rs:222-240 | no contract; the outer pieces of every working range against one rule, in order; `RuleStep` characterises them |
| RangeRemap.Converted | day5/src/main.rs:213-241 | no contract; the converted pieces of all the rules of a stage, in rule order |
| RangeRemap.Unconverted | day5/src/main.rs:214-241 | no contract; the working ranges left over after a stage's last rule |
| RangeRemap.ApplyStage | day5/src/main.rs:211-245 | no contract; one stage: the converted pieces followed by the leftovers; `ApplyMapping` is the loop proved equal to it, and `StageForward`, `StageBackward`, `StageLength` and `StageNonEmpty` state its meaning |
| RangeRemap.RemapRanges | day5/src/main.rs:211-245 | no contract; every stage applied in turn; `RemapExact` states its meaning |
| AlmanacExamples.FirstRuleLine | day5/src/main.rs:52-68 | `50 98 2` reads as destination `[50, 52)` and source `[98, 100)` |
| AlmanacExamples.SecondRuleLine | day5/src/main.rs:52-68 | `52 50 48` reads as destination `[52, 100)` and source `[50, 98)` |
| AlmanacExamples.SeedToSoilPoints | day5/src/main.rs:125-133 | seeds 79, 14, 55, 13, 98 and 100 land on soils 81, 14, 57, 13, 50 and 100 |
| AlmanacExamples.SeedRangeOfPair | day5/src/main.rs:205-209 | the seed pair `79 14` is the range `[79, 93)` |
| AlmanacExamples.SeedRangeThroughSeedToSoil | day5/src/main.rs:211-245 | `[79, 93)` becomes `[81, 95)` through the seed-to-soil table |
| AlmanacExamples.StraddlingRange | day5/src/main.rs:216-244 | a range straddling both rules becomes two converted pieces followed by the unconverted rest |
| AlmanacExamples.FirstRuleWins | day5/src/main.rs:125-133 | with overlapping rules the earlier one wins, for points and ranges alike |
| AlmanacExamples.ZeroLengthRuleSplits | day5/src/main.rs:223-237 | a zero-length rule inside a range splits it in two without converting anything |
| CamelCards.Strength | day7/src/main.rs:10-24 | card values lie in -1..12, and only the joker is -1 |
| CamelCards.StrengthInjective | day7/src/main.rs:10-24 | different cards have different values |
| CamelCards.ParseCardAccepts | day7/src/main.rs:27-44 | exactly the thirteen card letters are accepted, and only `J` is the joker |
| CamelCards.CardCharRoundTrip | day7/src/main.rs:27-44 | every card is read back from its letter, and every accepted letter is the letter of its card |
| CamelCards.ParseCards | day7/src/main.rs:68-76 | a hand text is read exactly when every letter is a card, giving one card per letter |
| CamelCards.CountMapSnoc | day7/src/main.rs:73-76 | folding in one more card raises that card's count by one, starting from 0 |
| CamelCards.CountMapCounts | day7/src/main.rs:68-76 | the count map has exactly the hand's cards as keys, each mapped to its number of occurrences, at least 1 |
| CamelCards.ParseHand | day7/src/main.rs:66-80 | a line is a hand exactly when its first field is all cards and a numeric second field exists; the text, bid and count map come from those fields |
| CamelCards.ParsedHandValid | day7/src/main.rs:66-80 | a parsed hand's count map and text agree |
| CamelCards.HandFromLine | day7/src/main.rs:66-80 | the fold over the letters builds the hand `ParseHand` describes |
| CamelCards.TypeRank | day7/src/main.rs:55-63 | hand types rank from 0 (high card) to 6 (five of a kind) |
| CamelCards.FindIn | day7/src/main.rs:84-99 | a search finds a card exactly when one in its order reaches the count with the jokers added, and only such a card |
| CamelCards.FindByCount | day7/src/main.rs:84-99 | some card is found exactly when some card reaches the count with the jokers added (the joker's own count taken as 0) |
| CamelCards.SecondPairChoiceFree | day7/src/main.rs:120-139 | whether a second pair exists does not depend on which pair card the search returned |
| CamelCards.GetTypeCharacterised | day7/src/main.rs:101-143 | five of a kind exactly when some card reaches five; high card exactly when no card reaches any count from two to five |
| CamelCards.GetTypeTwoPair | day7/src/main.rs:120-139 | with two as the best count, two pair exactly when a second pair exists and three distinct cards are held |
| CamelCards.CompareInt | day7/src/main.rs:163 | the comparison is `Less`, `Equal` or `Greater` exactly as the integers compare |
| CamelCards.TieBreak | day7/src/main.rs:182-192 | the card-by-card comparison is `Equal` exactly when the zipped prefixes agree |
| CamelCards.TieBreakDecides | day7/src/main.rs:182-192 | a tie-break other than `Equal` is the comparison of the first position where the zipped cards differ |
| CamelCards.PartialCmpIsCmp | day7/src/main.rs:152-170 | `partial_cmp` is `cmp` with `Equal` replaced by `None`, so `<` holds exactly when `cmp` is `Less` |
| CamelCards.CmpMeaning | day7/src/main.rs:176-193 | a lower type orders first, a higher one last; `Equal` exactly when the types and all zipped cards agree |
| CamelCards.CmpReverse | day7/src/main.rs:176-193 | swapping the hands reverses the ordering |
| CamelCards.CmpEqualIsEq | day7/src/main.rs:146-149 | for hands of one length, `cmp` is `Equal` exactly when `eq` holds, and equal hands have equal counts |
| CamelCards.CmpTransitive | day7/src/main.rs:176-193 | for hands of one length the ordering is transitive |
| CamelCards.Insert | day7/src/main.rs:207 | inserting a hand adds exactly that hand |
| CamelCards.SortHands | day7/src/main.rs:207 | sorting permutes the hands |
| CamelCards.InsertSorted | day7/src/main.rs:207 | inserting into a sorted list of comparable hands keeps it sorted |
| CamelCards.SortHandsSorted | day7/src/main.rs:207 | sorted hands of one length are in ascending `cmp` order |
| CamelCards.Ties | day7/src/main.rs:207 | picks out hands of the input that have the text of the given hand |
| CamelCards.TiesSnoc | day7/src/main.rs:207 | a hand appended to the list joins its ties at the end when it has the given text |
| CamelCards.LtNotEq | day7/src/main.rs:146-170 | a hand `<` another of the same length does not share its text |
| CamelCards.InsertTies | day7/src/main.rs:207 | inserting a hand leaves the hands with a given text in their order and adds the new hand after them |
| CamelCards.SortHandsStable | day7/src/main.rs:207 | the sort is stable: among hands of one length, those with one text (which `cmp` cannot tell apart, for example `AAAAA 1` and `AAAAA 2`) keep their input order |
| CamelCards.WinningsBounds | day7/src/main.rs:209-212 | the winnings lie between the total bid and the number of hands times the total bid |
| CamelCards.ParseHands | day7/src/main.rs:201-205 | the lines give hands exactly when every line parses as a hand; hand i is the hand of line i, and every hand is valid |
| CamelCards.TotalWinnings | day7/src/main.rs:196-214 | the answer is the rank-weighted bid sum of the sorted hands of the non-empty lines, and nothing when a line is not a hand |
| CamelCards.SumWinnings | day7/src/main.rs:209-212 | the loop adds each hand's bid times its rank plus one |
| CamelCards.ParseCard | day7/src/main.rs:26-44 | no contract; the thirteen card letters; `ParseCardAccepts` and `CardCharRoundTrip` characterise it |
| CamelCards.CountMap | day7/src/main.rs:68-76 | no contract; the counting fold; `CountMapSnoc` and `CountMapCounts` characterise it |
| CamelCards.GetType | day7/src/main.rs:101-143 | no contract; the decision tree of `get_type`; `GetTypeCharacterised`, `GetTypeTwoPair`, `SecondPairChoiceFree` and the table rows state its results |
| CamelCards.Eq | day7/src/main.rs:146-149 | no contract; the hands' texts agree; `CmpEqualIsEq` ties it to `cmp` |
| CamelCards.PartialCmp | day7/src/main.rs:152-170 | no contract; type rank first, then the zipped card comparison, with a tie as nothing; `PartialCmpIsCmp` relates it to `cmp` |
| CamelCards.Cmp | day7/src/main.rs:175-193 | no contract; type rank first, then the zipped card comparison; `CmpMeaning`, `CmpReverse`, `CmpTransitive` and `CmpEqualIsEq` state its meaning |
| CamelCards.Winnings | day7/src/main.rs:208-212 | no contract; bid times rank summed over the ranked hands; `WinningsBounds` bounds it and `SumWinnings` is the loop proved equal to it |
| CamelCards.PartOne | day7/src/main.rs:196-212 | no contract; the winnings of the sorted hands of the non-empty lines, or nothing when a line is not a hand; `TotalWinnings` is the method proved equal to it |
| CamelCardsExamples.ParseCardsFive | day7/src/main.rs:68-76 | five card letters read as those five cards |
| CamelCardsExamples.FiveOfKindWhen | day7/src/main.rs:104-105 | a card reaching five with the jokers makes five of a kind |
| CamelCardsExamples.FourOfKindWhen | day7/src/main.rs:106-107 | a best count of four makes four of a kind |
| CamelCardsExamples.ThreeWhen | day7/src/main.rs:110-117 | a best count of three makes a full house with two distinct cards, or three with one joker, and three of a kind otherwise |
| CamelCardsExamples.OnePairWhen | day7/src/main.rs:120-139 | a best count of two with no second pair makes one pair |
| CamelCardsExamples.Counts5J984 | day7/src/main.rs:250 | `5J984` parses to its five cards and their count map has the keys and counts of those cards |
| CamelCardsExamples.Type5J984 | day7/src/main.rs:250 | a count map with the keys and counts of `5J984` is classified OnePair |
| CamelCardsExamples.Row5J984 | day7/src/main.rs:250 | `5J984` parses, and `get_type` of its card counts is OnePair |
| CamelCardsExamples.Counts787J8 | day7/src/main.rs:251 | `787J8` parses to its five cards and their count map has the keys and counts of those cards |
| CamelCardsExamples.Type787J8 | day7/src/main.rs:251 | a count map with the keys and counts of `787J8` is classified FullHouse |
| CamelCardsExamples.Row787J8 | day7/src/main.rs:251 | `787J8` parses, and `get_type` of its card counts is FullHouse |
| CamelCardsExamples.Counts7JJ77 | day7/src/main.rs:252 | `7JJ77` parses to its five cards and their count map has the keys and counts of those cards |
| CamelCardsExamples.Type7JJ77 | day7/src/main.rs:252 | a count map with the keys and counts of `7JJ77` is classified FiveOfKind |
| CamelCardsExamples.Row7JJ77 | day7/src/main.rs:252 | `7JJ77` parses, and `get_type` of its card counts is FiveOfKind |
| CamelCardsExamples.CountsA7T4J | day7/src/main.rs:253 | `A7T4J` parses to its five cards and their count map has the keys and counts of those cards |
| CamelCardsExamples.TypeA7T4J | day7/src/main.rs:253 | a count map with the keys and counts of `A7T4J` is classified OnePair |
| CamelCardsExamples.RowA7T4J | day7/src/main.rs:253 | `A7T4J` parses, and `get_type` of its card counts is OnePair |
| CamelCardsExamples.CountsQ9A7J | day7/src/main.rs:254 | `Q9A7J` parses to its five cards and their count map has the keys and counts of those cards |
| CamelCardsExamples.TypeQ9A7J | day7/src/main.rs:254 | a count map with the keys and counts of `Q9A7J` is classified OnePair |
| CamelCardsExamples.RowQ9A7J | day7/src/main.rs:254 | `Q9A7J` parses, and `get_type` of its card counts is OnePair |
| CamelCardsExamples.Counts8J544 | day7/src/main.rs:255 | `8J544` parses to its five cards and their count map has the keys and counts of those cards |
| CamelCardsExamples.Type8J544 | day7/src/main.rs:255 | a count map with the keys and counts of `8J544` is classified ThreeOfKind |
| CamelCardsExamples.Row8J544 | day7/src/main.rs:255 | `8J544` parses, and `get_type` of its card counts is ThreeOfKind |
| CamelCardsExamples.Counts9JQ44 | day7/src/main.rs:256 | `9JQ44` parses to its five cards and their count map has the keys and counts of those cards |
| CamelCardsExamples.Type9JQ44 | day7/src/main.rs:256 | a count map with the keys and counts of `9JQ44` is classified ThreeOfKind |
| CamelCardsExamples.Row9JQ44 | day7/src/main.rs:256 | `9JQ44` parses, and `get_type` of its card counts is ThreeOfKind |
| CamelCardsExamples.Counts963J5 | day7/src/main.rs:257 | `963J5` parses to its five cards and their count map has the keys and counts of those cards |
| CamelCardsExamples.Type963J5 | day7/src/main.rs:257 | a count map with the keys and counts of `963J5` is classified OnePair |
| CamelCardsExamples.Row963J5 | day7/src/main.rs:257 | `963J5` parses, and `get_type` of its card counts is OnePair |
| CamelCardsExamples.Counts7JJ99 | day7/src/main.rs:258 | `7JJ99` parses to its five cards and their count map has the keys and counts of those cards |
| CamelCardsExamples.Type7JJ99 | day7/src/main.rs:258 | a count map with the keys and counts of `7JJ99` is classified FourOfKind |
| CamelCardsExamples.Row7JJ99 | day7/src/main.rs:258 | `7JJ99` parses, and `get_type` of its card counts is FourOfKind |
| CamelCardsExamples.CountsQ6QQJ | day7/src/main.rs:259 | `Q6QQJ` parses to its five cards and their count map has the keys and counts of those cards |
| CamelCardsExamples.TypeQ6QQJ | day7/src/main.rs:259 | a count map with the keys and counts of `Q6QQJ` is classified FourOfKind |
| CamelCardsExamples.RowQ6QQJ | day7/src/main.rs:259 | `Q6QQJ` parses, and `get_type` of its card counts is FourOfKind |
| CamelCardsExamples.Counts68J8T | day7/src/main.rs:260 | `68J8T` parses to its five cards and their count map has the keys and counts of those cards |
| CamelCardsExamples.Type68J8T | day7/src/main.rs:260 | a count map with the keys and counts of `68J8T` is classified ThreeOfKind |
| CamelCardsExamples.Row68J8T | day7/src/main.rs:260 | `68J8T` parses, and `get_type` of its card counts is ThreeOfKind |
| CamelCardsExamples.Counts5JJK9 | day7/src/main.rs:261 | `5JJK9` parses to its five cards and their count map has the keys and counts of those cards |
| CamelCardsExamples.Type5JJK9 | day7/src/main.rs:261 | a count map with the keys and counts of `5JJK9` is classified ThreeOfKind |
| CamelCardsExamples.Row5JJK9 | day7/src/main.rs:261 | `5JJK9` parses, and `get_type` of its card counts is ThreeOfKind |
| CamelCardsExamples.CountsA94AJ | day7/src/main.rs:262 | `A94AJ` parses to its five cards and their count map has the keys and counts of those cards |
| CamelCardsExamples.TypeA94AJ | day7/src/main.rs:262 | a count map with the keys and counts of `A94AJ` is classified ThreeOfKind |
| CamelCardsExamples.RowA94AJ | day7/src/main.rs:262 | `A94AJ` parses, and `get_type` of its card counts is ThreeOfKind |
| CamelCardsExamples.Counts777J8 | day7/src/main.rs:263 | `777J8` parses to its five cards and their count map has the keys and counts of those cards |
| CamelCardsExamples.Type777J8 | day7/src/main.rs:263 | a count map with the keys and counts of `777J8` is classified FourOfKind |
| CamelCardsExamples.Row777J8 | day7/src/main.rs:263 | `777J8` parses, and `get_type` of its card counts is FourOfKind |
| CamelCardsExamples.CountsJTK7J | day7/src/main.rs:264 | `JTK7J` parses to its five cards and their count map has the keys and counts of those cards |
| CamelCardsExamples.TypeJTK7J | day7/src/main.rs:264 | a count map with the keys and counts of `JTK7J` is classified ThreeOfKind |
| CamelCardsExamples.RowJTK7J | day7/src/main.rs:264 | `JTK7J` parses, and `get_type` of its card counts is ThreeOfKind |
| CamelCardsExamples.Counts96J29 | day7/src/main.rs:265 | `96J29` parses to its five cards and their count map has the keys and counts of those cards |
| CamelCardsExamples.Type96J29 | day7/src/main.rs:265 | a count map with the keys and counts of `96J29` is classified ThreeOfKind |
| CamelCardsExamples.Row96J29 | day7/src/main.rs:265 | `96J29` parses, and `get_type` of its card counts is ThreeOfKind |
| CamelCardsExamples.Counts7J44Q | day7/src/main.rs:266 | `7J44Q` parses to its five cards and their count map has the keys and counts of those cards |
| CamelCardsExamples.Type7J44Q | day7/src/main.rs:266 | a count map with the keys and counts of `7J44Q` is classified ThreeOfKind |
| CamelCardsExamples.Row7J44Q | day7/src/main.rs:266 | `7J44Q` parses, and `get_type` of its card counts is ThreeOfKind |
| CamelCardsExamples.CountsT6JT6 | day7/src/main.rs:267 | `T6JT6` parses to its five cards and their count map has the keys and counts of those cards |
| CamelCardsExamples.TypeT6JT6 | day7/src/main.rs:267 | a count map with the keys and counts of `T6JT6` is classified FullHouse |
| CamelCardsExamples.RowT6JT6 | day7/src/main.rs:267 | `T6JT6` parses, and `get_type` of its card counts is FullHouse |
| CamelCardsExamples.CountsT9AAJ | day7/src/main.rs:268 | `T9AAJ` parses to its five cards and their count map has the keys and counts of those cards |
| CamelCardsExamples.TypeT9AAJ | day7/src/main.rs:268 | a count map with the keys and counts of `T9AAJ` is classified ThreeOfKind |
| CamelCardsExamples.RowT9AAJ | day7/src/main.rs:268 | `T9AAJ` parses, and `get_type` of its card counts is ThreeOfKind |
| CamelCardsExamples.CountsJ5559 | day7/src/main.rs:269 | `J5559` parses to its five cards and their count map has the keys and counts of those cards |
| CamelCardsExamples.TypeJ5559 | day7/src/main.rs:269 | a count map with the keys and counts of `J5559` is classified FourOfKind |
| CamelCardsExamples.RowJ5559 | day7/src/main.rs:269 | `J5559` parses, and `get_type` of its card counts is FourOfKind |
| CamelCardsExamples.CountsT7AJ7 | day7/src/main.rs:270 | `T7AJ7` parses to its five cards and their count map has the keys and counts of those cards |
| CamelCardsExamples.TypeT7AJ7 | day7/src/main.rs:270 | a count map with the keys and counts of `T7AJ7` is classified ThreeOfKind |
| CamelCardsExamples.RowT7AJ7 | day7/src/main.rs:270 | `T7AJ7` parses, and `get_type` of its card counts is ThreeOfKind |
| CamelCardsExamples.CountsJ7TTK | day7/src/main.rs:271 | `J7TTK` parses to its five cards and their count map has the keys and counts of those cards |
| CamelCardsExamples.TypeJ7TTK | day7/src/main.rs:271 | a count map with the keys and counts of `J7TTK` is classified ThreeOfKind |
| CamelCardsExamples.RowJ7TTK | day7/src/main.rs:271 | `J7TTK` parses, and `get_type` of its card counts is ThreeOfKind |
| CamelCardsExamples.Counts6QJJQ | day7/src/main.rs:272 | `6QJJQ` parses to its five cards and their count map has the keys and counts of those cards |
| CamelCardsExamples.Type6QJJQ | day7/src/main.rs:272 | a count map with the keys and counts of `6QJJQ` is classified FourOfKind |
| CamelCardsExamples.Row6QJJQ | day7/src/main.rs:272 | `6QJJQ` parses, and `get_type` of its card counts is FourOfKind |
| CamelCardsExamples.Counts5JJ5J | day7/src/main.rs:273 | `5JJ5J` parses to its five cards and their count map has the keys and counts of those cards |
| CamelCardsExamples.Type5JJ5J | day7/src/main.rs:273 | a count map with the keys and counts of `5JJ5J` is classified FiveOfKind |
| CamelCardsExamples.Row5JJ5J | day7/src/main.rs:273 | `5JJ5J` parses, and `get_type` of its card counts is FiveOfKind |
| CamelCardsExamples.Counts6QJJ6 | day7/src/main.rs:274 | `6QJJ6` parses to its five cards and their count map has the keys and counts of those cards |
| CamelCardsExamples.Type6QJJ6 | day7/src/main.rs:274 | a count map with the keys and counts of `6QJJ6` is classified FourOfKind |
| CamelCardsExamples.Row6QJJ6 | day7/src/main.rs:274 | `6QJJ6` parses, and `get_type` of its card counts is FourOfKind |
| CamelCardsExamples.CountsT7J77 | day7/src/main.rs:275 | `T7J77` parses to its five cards and their count map has the keys and counts of those cards |
| CamelCardsExamples.TypeT7J77 | day7/src/main.rs:275 | a count map with the keys and counts of `T7J77` is classified FourOfKind |
| CamelCardsExamples.RowT7J77 | day7/src/main.rs:275 | `T7J77` parses, and `get_type` of its card counts is FourOfKind |
| CamelCardsExamples.Counts7J5T7 | day7/src/main.rs:276 | `7J5T7` parses to its five cards and their count map has the keys and counts of those cards |
| CamelCardsExamples.Type7J5T7 | day7/src/main.rs:276 | a count map with the keys and counts of `7J5T7` is classified ThreeOfKind |
| CamelCardsExamples.Row7J5T7 | day7/src/main.rs:276 | `7J5T7` parses, and `get_type` of its card counts is ThreeOfKind |
| CamelCardsExamples.CountsJQ478 | day7/src/main.rs:277 | `JQ478` parses to its five cards and their count map has the keys and counts of those cards |
| CamelCardsExamples.TypeJQ478 | day7/src/main.rs:277 | a count map with the keys and counts of `JQ478` is classified OnePair |
| CamelCardsExamples.RowJQ478 | day7/src/main.rs:277 | `JQ478` parses, and `get_type` of its card counts is OnePair |
| CamelCardsExamples.CountsQQ9QJ | day7/src/main.rs:278 | `QQ9QJ` parses to its five cards and their count map has the keys and counts of those cards |
| CamelCardsExamples.TypeQQ9QJ | day7/src/main.rs:278 | a count map with the keys and counts of `QQ9QJ` is classified FourOfKind |
| CamelCardsExamples.RowQQ9QJ | day7/src/main.rs:278 | `QQ9QJ` parses, and `get_type` of its card counts is FourOfKind |
| CamelCardsExamples.CountsTAJQK | day7/src/main.rs:279 | `TAJQK` parses to its five cards and their count map has the keys and counts of those cards |
| CamelCardsExamples.TypeTAJQK | day7/src/main.rs:279 | a count map with the keys and counts of `TAJQK` is classified OnePair |
| CamelCardsExamples.RowTAJQK | day7/src/main.rs:279 | `TAJQK` parses, and `get_type` of its card counts is OnePair |
| CamelCardsExamples.CountsJ4422 | day7/src/main.rs:280 | `J4422` parses to its five cards and their count map has the keys and counts of those cards |
| CamelCardsExamples.TypeJ4422 | day7/src/main.rs:280 | a count map with the keys and counts of `J4422` is classified FullHouse |
| CamelCardsExamples.RowJ4422 | day7/src/main.rs:280 | `J4422` parses, and `get_type` of its card counts is FullHouse |
| CamelCardsExamples.CountsJ8JJ6 | day7/src/main.rs:281 | `J8JJ6` parses to its five cards and their count map has the keys and counts of those cards |
| CamelCardsExamples.TypeJ8JJ6 | day7/src/main.rs:281 | a count map with the keys and counts of `J8JJ6` is classified FourOfKind |
| CamelCardsExamples.RowJ8JJ6 | day7/src/main.rs:281 | `J8JJ6` parses, and `get_type` of its card counts is FourOfKind |
| CamelCardsExamples.Counts644J6 | day7/src/main.rs:282 | `644J6` parses to its five cards and their count map has the keys and counts of those cards |
| CamelCardsExamples.Type644J6 | day7/src/main.rs:282 | a count map with the keys and counts of `644J6` is classified FullHouse |
| CamelCardsExamples.Row644J6 | day7/src/main.rs:282 | `644J6` parses, and `get_type` of its card counts is FullHouse |
| CamelCardsExamples.CountsJ3333 | day7/src/main.rs:283 | `J3333` parses to its five cards and their count map has the keys and counts of those cards |
| CamelCardsExamples.TypeJ3333 | day7/src/main.rs:283 | a count map with the keys and counts of `J3333` is classified FiveOfKind |
| CamelCardsExamples.RowJ3333 | day7/src/main.rs:283 | `J3333` parses, and `get_type` of its card counts is FiveOfKind |
| CamelCardsExamples.CountsJ998A | day7/src/main.rs:284 | `J998A` parses to its five cards and their count map has the keys and counts of those cards |
| CamelCardsExamples.TypeJ998A | day7/src/main.rs:284 | a count map with the keys and counts of `J998A` is classified ThreeOfKind |
| CamelCardsExamples.RowJ998A | day7/src/main.rs:284 | `J998A` parses, and `get_type` of its card counts is ThreeOfKind |
| Scratchcards.ParseU32sExactly | day4/src/main.rs:19-31 | a token list parses exactly when every token is a decimal `u32`, giving those values in order |
| Scratchcards.TicketNumbersFit | day4/src/main.rs:19-31 | every number of a parsed ticket fits in a `u32` |
| Scratchcards.ParseTicketLine | day4/src/main.rs:15-37 | a printed line `Card id: winners \| picks` reads back as the set of the winners and the set of the picks |
| Scratchcards.TicketHalves | day4/src/main.rs:16-17 | a printed line splits at its colon and at its bar into exactly the two number segments |
| Scratchcards.SegmentNumbers | day4/src/main.rs:19-31 | a segment of numerals separated by spaces reads as the set of those numbers |
| Scratchcards.NoColonRefused | day4/src/main.rs:16 | a line without a colon is refused |
| Scratchcards.NoBarRefused | day4/src/main.rs:17 | a line without a bar after the colon is refused |
| Scratchcards.MatchingNumbers | day4/src/main.rs:48-50 | the match count is at most either side's size, and 0 exactly when the sides are disjoint |
| Scratchcards.Points | day4/src/main.rs:39-46 | a ticket is worth nothing exactly when it has no matches |
| Scratchcards.PointsDoubling | day4/src/main.rs:39-46 | one more match makes the first match worth 1 and doubles the points after that |
| Scratchcards.PointTotalZero | day4/src/main.rs:62-63 | the point total is 0 exactly when no ticket has a match |
| Scratchcards.ReadTickets | day4/src/main.rs:56-60 | the tickets are those of all `'\n'`-separated lines, or nothing when one line is not a ticket |
| Scratchcards.RiddlePartOne | day4/src/main.rs:53-66 | the answer is the point total of the tickets, and nothing when a line is not a ticket |
| Scratchcards.SumPoints | day4/src/main.rs:62-63 | the loop adds every ticket's points |
| Scratchcards.End | day4/src/main.rs:91 | the end of the copy range is past the ticket, at most the number of tickets, and at most the ticket plus its matches plus one |
| Scratchcards.Copies | day4/src/main.rs:83-109 | every ticket is held at least once |
| Scratchcards.NoMatchesNoCopies | day4/src/main.rs:68-113 | without matches every ticket is held exactly once |
| Scratchcards.WorkIndices | day4/src/main.rs:92-96 | queueing an index range adds exactly the copies those tickets hold |
| Scratchcards.Increment | day4/src/main.rs:83-85 | counting an index adds it to the pile, raises its count by one from 0, and leaves every other count unchanged |
| Scratchcards.IncrementSum | day4/src/main.rs:83-85 | each count adds exactly one to the pile's sum |
| Scratchcards.QueueCopies | day4/src/main.rs:92-96 | a ticket queues exactly the indices after it up to its end, in order |
| Scratchcards.QueuedRange | day4/src/main.rs:92-96 | every queued index is greater than the ticket that queued it and below the number of tickets |
| Scratchcards.CountTickets | day4/src/main.rs:78-109 | every ticket index is in the pile, counted at least once, and the pile adds up to the total number of tickets held |
| Scratchcards.CountOriginals | day4/src/main.rs:87-97 | every original is counted once, the queue holds only valid indices, and pile plus queued work is the total |
| Scratchcards.DrainQueue | day4/src/main.rs:99-109 | draining the queue keeps the pile's keys, never lowers a count, and adds exactly the queued work |
| Scratchcards.PopWork | day4/src/main.rs:99-109 | popping the queue's head trades its copies for one count |
| Scratchcards.SumCounts | day4/src/main.rs:111 | the sum adds every count of the pile |
| Scratchcards.RiddlePartTwo | day4/src/main.rs:68-113 | the answer is the total number of tickets held, at least one per line, and nothing when a line is not a ticket |
| Scratchcards.ParseTicket | day4/src/main.rs:15-37 | no contract; the numbers after the colon, split at the bar into winners and picks; `TicketHalves`, `SegmentNumbers`, `NoColonRefused`, `NoBarRefused` and `ParseTicketLine` characterise it |
| Scratchcards.CopiesRange | day4/src/main.rs:87-109 | the tickets that instances of tickets a..b-1 account for: at least one each |
| Scratchcards.Total | day4/src/main.rs:78-111 | the tickets held in the end, at least one per original; `CountTickets` proves the pile's sum equals it |
| Scratchcards.Work | day4/src/main.rs:99-109 | no contract; the tickets the queued indices still account for, cascades included; `WorkIndices`, `PopWork` and `CountAndQueue` state how it changes |
| Scratchcards.CountAndQueue | day4/src/main.rs:87-108 | counting ticket i once and queueing the copies it wins keeps the queued indices in range, trades its cascade for one count plus the new work, and adds one to the pile's sum |
| GearRatios.Positions | day3/src/main.rs:52-62 | a run's coordinates are exactly the positions from its start to its end in its row |
| GearRatios.RowRunsMaximal | day3/src/main.rs:41-72 | the runs of a row are maximal runs of digits, in order and separated by gaps, and cover every digit |
| GearRatios.MaximalRunListed | day3/src/main.rs:41-72 | every maximal digit run of a row is one of its parts |
| GearRatios.ScanRow | day3/src/main.rs:41-72 | scanning a row yields one part per maximal digit run, whose number is the run's decimal value and whose coordinates are its positions |
| GearRatios.ReadSkip | day3/src/main.rs:47 | a non-digit leaves the scan's buffer, coordinates and parts as they are |
| GearRatios.ReadExtend | day3/src/main.rs:48-50 | a digit right after the last one extends the buffer and its coordinates |
| GearRatios.ReadRestart | day3/src/main.rs:51-62 | a digit after a gap closes the current part and starts a new one |
| GearRatios.ReadFinish | day3/src/main.rs:66-72 | at the end of a row a non-empty buffer becomes the row's last part |
| GearRatios.ClosePart | day3/src/main.rs:52-56 | a closed buffer is the part of its run |
| GearRatios.RowSymbols | day3/src/main.rs:75-78 | a row's symbols are exactly the coordinates of its symbol characters |
| GearRatios.RowPartsOf | day3/src/main.rs:41-72 | a row has one part per maximal digit run |
| GearRatios.SymbolsAt | day3/src/main.rs:75-78 | the schematic's symbols are exactly the symbol positions over all rows |
| GearRatios.ParseSchematic | day3/src/main.rs:30-87 | width is the length of the first row, height the number of rows, parts are the rows' parts in order and symbols the symbol positions |
| GearRatios.RowPartsInRow | day3/src/main.rs:43-62 | every coordinate of a row's parts lies in that row, inside it, on a digit |
| GearRatios.SymbolsAreNotDigits | day3/src/main.rs:5 | no symbol is a digit or `.` |
| GearRatios.NeighbourIsAdjacent | day3/src/main.rs:92-96 | a coordinate has a symbol among the eight offsets exactly when a symbol lies at distance at most one in both directions, other than itself |
| GearRatios.ValidSumBounded | day3/src/main.rs:97-116 | the valid sum is at most the sum of all part numbers, and equal to it when every part is valid |
| GearRatios.NoSymbolsNoSum | day3/src/main.rs:97-116 | without symbols the sum is 0 |
| GearRatios.ValidPartsSum | day3/src/main.rs:90-117 | the loop adds exactly the numbers of the valid parts, each once |
| GearRatios.PartIsValid | day3/src/main.rs:99-113 | the labelled search finds a symbol neighbour exactly when the part has one |
| GearRatios.RiddlePartOne | day3/src/main.rs:120-126 | the answer is the valid-part sum of the text's schematic, at most the sum of all its part numbers |
| GearRatios.HasSymbolNeighbour | day3/src/main.rs:92-111 | no contract; one of the eight offsets of a position is a symbol; `NeighbourIsAdjacent` characterises it |
| GearRatios.IsValidPart | day3/src/main.rs:101-113 | no contract; some digit of the part has a symbol neighbour; `PartIsValid` is the labelled search proved equal to it |
| GearRatios.ValidSum | day3/src/main.rs:90-117 | no contract; the numbers of the valid parts added up; `ValidSumBounded`, `NoSymbolsNoSum` and `ValidPartsSum` state its meaning |
| Mirage.IntNumeral | day9/src/main.rs:8 | a printed integer is a non-empty token without whitespace |
| Mirage.ParseIntNumeral | day9/src/main.rs:8 | a printed integer parses back to itself |
| Mirage.ParseHistoryLine | day9/src/main.rs:8 | a printed history reads back as itself |
| Mirage.HistoryLineTokens | day9/src/main.rs:8 | a printed history splits into its numerals |
| Mirage.ParseIntNumerals | day9/src/main.rs:8 | the numerals of a list parse back to the list |
| Mirage.GetTimeRowsOfReport | day9/src/main.rs:6-10 | a report of printed histories, one per line, reads back as those histories |
| Mirage.ReportLines | day9/src/main.rs:7 | the non-empty lines of a report are its printed histories |
| Mirage.ParseHistoryLines | day9/src/main.rs:7-9 | each printed history line parses to its history |
| Mirage.Plus | day9/src/main.rs:35 | a sum exists exactly when both addends do, and is their sum |
| Mirage.Last | day9/src/main.rs:35 | a row has a last element exactly when it is non-empty |
| Mirage.PredictNext | day9/src/main.rs:12-36 | the difference loop computes the extrapolation of the row, or nothing when a row of the table is empty |
| Mirage.PredictionMoves | day9/src/main.rs:26-30 | pushing the next row of differences keeps the sum of the finished rows' last elements plus the rest's extrapolation |
| Mirage.PredictionEnds | day9/src/main.rs:22-24 | at an all-zero row the prediction is the sum of every row's last element |
| Mirage.NoPrediction | day9/src/main.rs:18-35 | an empty row and a single non-zero value give nothing; a single zero gives 0 |
| Mirage.ConstantPrediction | day9/src/main.rs:15-35 | a constant row of length at least two predicts its constant |
| Mirage.ArithmeticPrediction | day9/src/main.rs:15-35 | an arithmetic row of length at least three predicts its last value plus its step |
| Mirage.ShiftPrediction | day9/src/main.rs:15-35 | adding a constant to every value adds it to the prediction |
| Mirage.RiddlePartOne | day9/src/main.rs:40-48 | the answer is the sum of every history's prediction, and nothing when the input does not parse or a prediction fails |
| Mirage.TotalPredictionSnoc | day9/src/main.rs:46 | one more history adds its prediction to the total |
| Mirage.ParseHistory | day9/src/main.rs:8 | no contract; a line trimmed, split on single spaces, every token read as an integer; `ParseHistoryLine` and `ParseHistoryLines` read printed histories back |
| Mirage.GetTimeRows | day9/src/main.rs:6-10 | no contract; the histories of the non-empty lines; `GetTimeRowsOfReport` reads a printed report back |
| Mirage.Diffs | day9/src/main.rs:26-30 | no contract; the differences of neighbouring readings, one entry shorter than the row |
| Mirage.Extrapolate | day9/src/main.rs:12-36 | no contract; the recursive reference definition of the prediction; `PredictNext` is the loop proved equal to it, and `NoPrediction`, `ConstantPrediction`, `ArithmeticPrediction` and `ShiftPrediction` state its results |
| Mirage.TotalPrediction | day9/src/main.rs:46 | no contract; the predictions of all histories added up, nothing if one fails; `TotalPredictionSnoc` and `RiddlePartOne` use it |
| CubeConundrum.ColorFromString | day2/src/main.rs:13-23 | exactly `red`, `green` and `blue` are colours, each the colour of that name |
| CubeConundrum.ColorNameRoundTrip | day2/src/main.rs:13-23 | every colour is read back from its name |
| CubeConundrum.ParseDraw | day2/src/main.rs:39-54 | the insertion loop builds the draw of the comma-separated `count colour` pairs, with a repeated colour keeping its last count |
| CubeConundrum.ParseGame | day2/src/main.rs:58-74 | a line is refused with an error exactly when splitting at `:` does not give two parts |
| CubeConundrum.ParseCountText | day2/src/main.rs:44-46 | a printed `count colour` pair reads back as itself |
| CubeConundrum.DrawOfText | day2/src/main.rs:39-54 | a printed draw reads back as the map of its pairs, the last count of a colour winning |
| CubeConundrum.DrawsOfTexts | day2/src/main.rs:65-67 | printed draws joined by `;` read back as those draws |
| CubeConundrum.GameHead | day2/src/main.rs:64 | the id of `Game id` is read from index 5 on |
| CubeConundrum.ParseGameText | day2/src/main.rs:58-74 | a printed game reads back as its id and its draws |
| CubeConundrum.IsPossible | day2/src/main.rs:92-101 | a game is possible exactly when no draw shows more of a colour than the bag holds |
| CubeConundrum.ReadGames | day2/src/main.rs:80-91 | the games are those of all lines, or nothing when a line is not a game |
| CubeConundrum.RiddlePartOne | day2/src/main.rs:78-112 | the answer is the sum of the possible games' ids, and nothing when a line is not a game |
| CubeConundrum.SumPossibleIds | day2/src/main.rs:92-105 | the loop adds the ids of exactly the possible games |
| CubeConundrum.MaxCountBounds | day2/src/main.rs:123-131 | the minimum for a colour is at least its count in every draw |
| CubeConundrum.MaxCountAttained | day2/src/main.rs:123-131 | a colour's minimum is the count it shows in some draw |
| CubeConundrum.MinimumCounts | day2/src/main.rs:123-131 | each colour's recorded minimum is its largest count over the draws, and a colour is recorded exactly when that count is positive |
| CubeConundrum.GamePower | day2/src/main.rs:123-136 | the power is the product of the recorded per-colour maxima, a colour never recorded adding a factor of 1 |
| CubeConundrum.RiddlePartTwo | day2/src/main.rs:114-142 | the answer is the sum of the games' powers, and nothing when a line is not a game |
| CubeConundrum.SumPowers | day2/src/main.rs:137 | the loop adds every game's power |
| CubeConundrum.PossibleIffMaxWithinBag | day2/src/main.rs:83-131 | a game is possible exactly when every colour's minimum count fits the bag |
| CubeConundrum.PowerWithoutCubes | day2/src/main.rs:133-136 | a game whose draws show no colour with a positive count has power 1 |
| CubeConundrum.ParseCubeCount | day2/src/main.rs:44-47 | no contract; the first two words of an entry as count and colour, nothing where the source panics |
| CubeConundrum.DrawOf | day2/src/main.rs:39-54 | no contract; the comma-separated entries inserted in order; `ParseDraw` is the loop proved equal to it and `DrawOfText` reads printed draws back |
| CubeConundrum.GameOf | day2/src/main.rs:91 | no contract; a line that is not a game gives nothing, where `expect` panics |
| CubeConundrum.Possible | day2/src/main.rs:92-101 | no contract; no draw shows a colour more often than the bag holds it; `IsPossible` and `PossibleIffMaxWithinBag` characterise it |
| CubeConundrum.PossibleIdSum | day2/src/main.rs:88-107 | no contract; the ids of the possible games added up; `SumPossibleIds` is the loop proved equal to it |
| CubeConundrum.MaxCount | day2/src/main.rs:123-131 | no contract; a colour's largest count over the draws; `MaxCountBounds`, `MaxCountAttained` and `MinimumCounts` characterise it |
| CubeConundrum.Power | day2/src/main.rs:133-136 | no contract; the product of the per-colour maxima, 1 for a colour never shown; `GamePower` and `PowerWithoutCubes` state it |
| CubeConundrum.PowerSum | day2/src/main.rs:118-138 | no contract; the powers of all games added up; `SumPowers` is the loop proved equal to it |
| HauntedWasteland.Instructions | day8/src/main.rs:16 | one direction per character, 0 exactly for `L` and 1 otherwise |
| HauntedWasteland.BuildNetwork | day8/src/main.rs:19-33 | the insertion loop builds the network of the node lines from line 2 on, a later key overwriting an earlier one, and nothing when a node line is malformed |
| HauntedWasteland.ParseNodeText | day8/src/main.rs:23-32 | a printed node `K = (A, B)` reads back as key `K` with successors `A` and `B` |
| HauntedWasteland.NodeTextsParse | day8/src/main.rs:20-32 | every printed node line reads back as its node |
| HauntedWasteland.WastelandLines | day8/src/main.rs:13 | a printed network splits into the instruction line, a blank line and the node lines |
| HauntedWasteland.ReadWastelandText | day8/src/main.rs:13-33 | a printed network gives back its instruction line and the map of its nodes, the last entry of a key winning |
| HauntedWasteland.TrailingNewlinePanics | day8/src/main.rs:20-29 | a trailing newline adds an empty node line, which is refused |
| HauntedWasteland.Walk | day8/src/main.rs:36-53 | the walk stops at `ZZZ` after the steps taken, gets stuck at a missing node or instruction list, or runs out of fuel, as the step-by-step positions say |
| HauntedWasteland.RiddlePartOne | day8/src/main.rs:9-56 | nothing when the network does not parse; otherwise the walk with the first line's instructions is described exactly |
| HauntedWasteland.DescribesUnique | day8/src/main.rs:36-53 | the walk's outcome is determined by the instructions, the network and the fuel |
| HauntedWasteland.Repeats | day8/src/main.rs:46-50 | two positions equal at step counts a whole number of instruction rounds apart stay equal after the same further steps |
| HauntedWasteland.NeverArrives | day8/src/main.rs:41-53 | a repeating cycle that never meets `ZZZ` keeps the walk going forever without arriving |
| HauntedWasteland.SampleInput | day8/src/main.rs:13-33 | the sample `LLR` network reads back as its instructions and nodes |
| HauntedWasteland.SampleSixSteps | day8/src/main.rs:36-53 | with enough fuel the sample walk arrives in six steps |
| HauntedWasteland.Instruction | day8/src/main.rs:16 | no contract; `L` is 0 and any other character 1; `Instructions` states it for the line |
| HauntedWasteland.ParseNode | day8/src/main.rs:23-29 | no contract; node, left and right successor of one line, nothing where the source panics; `ParseNodeText` and `TrailingNewlinePanics` characterise it |
| HauntedWasteland.NetworkOf | day8/src/main.rs:19-33 | no contract; the node lines inserted in order, a later line for a node winning; `BuildNetwork` is the loop proved equal to it |
| HauntedWasteland.PositionAfter | day8/src/main.rs:41-53 | no contract; the position after m moves following the instructions cyclically; `Walk`, `Repeats` and `NeverArrives` are stated over it |
| Trebuchet.FirstDigit | day1/src/main.rs:13 | the first digit is a digit value |
| Trebuchet.LastDigit | day1/src/main.rs:14 | the last digit is a digit value |
| Trebuchet.FirstDigitAt | day1/src/main.rs:13 | the first digit is the value at the first index that holds a digit |
| Trebuchet.LastDigitAt | day1/src/main.rs:14 | the last digit is the value at the last index that holds a digit |
| Trebuchet.NoDigitsGiveZero | day1/src/main.rs:13-14 | without digits both digits default to 0 |
| Trebuchet.Calibration | day1/src/main.rs:16 | a line's value lies in 0..99 |
| Trebuchet.SingleDigit | day1/src/main.rs:13-16 | a line with a single digit `d` is worth `11 * d` |
| Trebuchet.NoDigitsWorthZero | day1/src/main.rs:13-16 | a line without digits is worth 0 |
| Trebuchet.CalibrationSumBound | day1/src/main.rs:18 | every line adds at most 99 |
| Trebuchet.RiddlePartOne | day1/src/main.rs:7-18 | the answer is the sum of the values of all `'\n'`-separated lines, at most 99 per line |
| Trebuchet.Sample | day1/src/main.rs:7-18 | the four example lines add up to 142 |
| Trebuchet.SampleValues | day1/src/main.rs:13-16 | the example lines are worth 12, 38, 15 and 77 |

## Left out

- Argument parsing and file reading in `main`, and all printing. The printing happens inside the riddle functions, including the per-step `println!` of day 8's walk (day8/src/main.rs:49). Each riddle is modelled on the text it would read, and the number it prints last is its result.
- Day 6 as a whole: it solves quadratics in floating point.
- `Almanac::from_string`, `InformationMapping::from_text` and `InformationType` (day5/src/main.rs:9-42, 103-123, 163-176). They split the file into blocks and name the tables. The model starts from the parsed seeds and rule tables. The table names play no part in any computation.
- `InformationMapping::translate_range` (day5/src/main.rs:135-153): nothing calls it.
- The empty part-two functions of days 1, 3, 7, 8 and 9.
- Fixed-width integers: `isize`, `usize` and `u32` arithmetic is modelled with unbounded integers. So overflow in sums, products, the rule arithmetic, the difference table and the winnings does not appear. Parses that would panic on overflow are accepted instead: the `u32` part numbers of day 3 (day3/src/main.rs:53, 68), the `usize` cube counts and game ids of day 2 (day2/src/main.rs:45, 64), the `isize` almanac numbers of day 5 (day5/src/main.rs:57) and history values of day 9 (day9/src/main.rs:8), and the `usize` bids of day 7 (day7/src/main.rs:78). Day 4 does model the `u32` range of the numbers it parses.
- Hash-map and hash-set iteration order. Maps and sets are Dafny `map`/`set`. Where the day 7 search result depends on order, the model searches in a fixed card order, and `SecondPairChoiceFree` shows that the classification does not depend on that choice.
- CamelCards.SortHands: `sort` is a stable merge sort; the model is an insertion sort over the same `<`, and `SortHandsStable` proves it stable. The proofs that the result is sorted and stable need hands of one length, because the zipped tie-break is not transitive across lengths (for example `AK`, `A` and `AQ`).
- GearRatios.ScanRow: the row loop visits every column. Non-digit columns change nothing, which `ReadSkip` states.
- The parse-everything-first structure of days 2 and 4: a malformed line anywhere gives no answer. The source would panic at that line.
- Trailing newlines in days 2, 4 and 8: the empty last line is not filtered, so the source panics. The model gives no answer; for day 8 this is `TrailingNewlinePanics`.
- HauntedWasteland.Walk: the source's loop may run forever. The model takes a step budget (`fuel`) and reports running out of it. `NeverArrives` shows how a cycle that misses `ZZZ` makes the source loop forever.
- Mirage.RiddlePartOne: the source panics at the first failed prediction; the model goes on adding and still gives no answer.
- GearRatios.ParseSchematic, GearRatios.ScanRow, GearRatios.RowSymbols, CubeConundrum.ParseGame, CubeConundrum.GameHead, HauntedWasteland.ParseNode: positions, lengths and slices count characters, while the source counts bytes (`len` and `match_indices` at day3/src/main.rs:33, 41, 75; the slices at day2/src/main.rs:64 and day8/src/main.rs:26, 29). The input is taken to be ASCII, where the two agree. On other text the day 3 columns differ (in a row `éé1` the source puts `1` at byte 4, the model at character 2), and the source's panic when a slice cuts a multi-byte character is not modelled.
- RangeRemap.RemapExact, RangeRemap.LowestStartIsLowestLocation, RangeRemap.LowestLocationFromEmptyPairs: proved only for rules and seed ranges of non-negative length (`WellFormedStages`, `AllWellFormed`). The source reads every number as an `isize` and would accept a negative length. A rule of negative length, for example, leaves its before and after pieces overlapping, so values between its source's end and start are kept twice and total length grows. Puzzle inputs have no negative lengths.
- Panics in general become `None` or `Err`. No message text is modelled.
