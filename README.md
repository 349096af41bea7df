# Advent of Code 2022 solutions, modelled in Dafny

This project models the solutions to the 25 puzzles of Advent of Code 2022
in the Rust crate `aoc-2022` (`src/days/day1.rs` to `src/days/day25.rs`)
and the 64-bit bit set of `src/util.rs`, and proves what each solution
computes. There is one module per source file: `Day01` … `Day25` (with
day 17's part 2 in `Day17Cycle`) and `BitSets` for `src/util.rs`. A few
support modules stand for the parts of the Rust standard library the
solutions lean on:

- `Wrappers`: `Option`, which also stands for most panics (`unwrap` on
  `None`, an index out of range, `panic!`, `unreachable!`, a failing debug
  assertion) that the input decides. The few inputs that would panic but
  are excluded by a precondition instead are listed under "Left out".
- `RustInt`: Rust's truncating `/` and `%` on signed integers.
- `Text`: `split`, `lines`, `split_whitespace`, and `parse` and `Display`
  of integers.
- `Sorting`: `sort_unstable`, as an in-place sort of an array, specified
  by a sorted permutation; `Largest`: the sum of the `k` largest entries.
- `Search`: the breadth-first search of day 12 (a queue and an explored
  set, marked when a cell is queued), proved to return the length of a
  shortest walk to a goal. `TimedSearch` is the search of day 24, whose
  moves depend on the minute modulo a period.

Code that works by changing state is modelled imperatively: loops are
`while` loops with invariants, a buffer the source updates in place is an
array, and an object whose methods update its fields is a class (day 5's
`Storage`, day 7's `Terminal`, day 14's `Grid`, day 17's grid, day 21's
`Memory`, day 23's `Grove`, …). Each such method is proved against a pure
function of its inputs, and the puzzle's properties are lemmas about that
function. Code made of expressions is modelled by functions. Puzzle inputs
are given already parsed where the source parses them with a regular
expression, and otherwise usually from the text.

## Model

| member | source | states |
|---|---|---|
| BitSets.BitSet.Insert | src/util.rs:22-24 | the new set holds exactly the old members and `i` |
| BitSets.BitSet.And | src/util.rs:55-61 | an index is in the intersection iff it is in both sets |
| BitSets.BitSet.Len | src/util.rs:14-16 | the count of set bits is the number of members, at most 64 |
| BitSets.BitSet.ReduceSum | src/util.rs:7-12 | on a set of exactly one member (the debug assertion) the result is that member |
| BitSets.ReduceSumOfSingleton | src/util.rs:7-12 | for the set `{i}` the count is 1 and `reduce_sum` returns `i` |
| BitSets.LowestMemberExists | src/util.rs:11 | `trailing_zeros` of a non-empty set is below 64 and is a member |
| BitSets.IsEmptyIffNoMember | src/util.rs:18-20 | `is_empty` holds iff no index is a member |
| BitSets.FromSeq | src/util.rs:37-53 | the members of the collected set are exactly the indices of the sequence |
| BitSets.FromIter | src/util.rs:37-46 | the loop that ORs in each index builds that set: `j` is a member iff it occurs in the input |
| Day01.ParseElf | src/days/day1.rs:8-13 | one group parses iff every whitespace-separated word is an `i32`, and then it holds those numbers in order |
| Day01.Parse | src/days/day1.rs:5-15 | parsing succeeds iff every blank-line-separated group parses (a bad word is the `unwrap` panic) |
| Day01.Totals | src/days/day1.rs:24-27 | one total per elf, in input order, each the sum of that elf's items |
| Day01.MaxOf | src/days/day1.rs:19 | the maximum is an entry and no entry exceeds it |
| Day01.Part1 | src/days/day1.rs:18-20 | `None` iff there is no elf (the `unwrap` panic); otherwise the total of some elf that no elf exceeds |
| Day01.Part2 | src/days/day1.rs:23-30 | the result is the sum of the last three entries of the sorted totals |
| Day01.SumOfLast | src/days/day1.rs:29 | `rev().take(k).sum()` over the array is the sum of its last `k` entries |
| Day01.Part2IsLargest | src/days/day1.rs:23-30 | no choice of three elves (all of them when fewer) has a larger sum than the part 2 answer |
| Day01.Part2IsAttained | src/days/day1.rs:23-30 | the part 2 answer is the sum of some such choice of elves |
| Day01.Part1Example | src/days/day1.rs:37-53 | the example's elves give 24000 |
| Day02.Score | src/days/day2.rs:13-15 | rock, paper and scissors score 1, 2 and 3 |
| Day02.Not | src/days/day2.rs:31-42 | `!m` is never `m` |
| Day02.NotCycle | src/days/day2.rs:31-42 | `!` is a cycle of length three |
| Day02.NotBeats | src/days/day2.rs:31-42 | `!m` beats `m`, and `m` beats `!!m` |
| Day02.CompareIsGame | src/days/day2.rs:19-28 | `partial_cmp` is Greater iff the first move wins, Less iff the second wins, Equal iff the moves are the same |
| Day02.CompareAntisymmetric | src/days/day2.rs:19-28 | swapping the moves swaps Greater and Less and keeps Equal |
| Day02.RoundScore | src/days/day2.rs:75-82 | a round scores the shape plus 6 for a win, 3 for a draw, 0 for a loss |
| Day02.Part1 | src/days/day2.rs:72-84 | the total lies between one and nine points per round |
| Day02.StrategyAchievesOutcome | src/days/day2.rs:91-96 | X loses, Y draws and Z wins against the opponent, with 0, 3 and 6 points |
| Day02.Part2 | src/days/day2.rs:87-99 | the total lies between one and nine points per round |
| Day02.Part2IsPart1OfChosen | src/days/day2.rs:87-99 | part 2 equals part 1 of the rounds rewritten with the chosen shapes |
| Day02.ParseMove | src/days/day2.rs:47-54 | A/X, B/Y and C/Z are the three moves, and any other word is the panic |
| Day02.ParseWords | src/days/day2.rs:58-69 | parsing succeeds iff the word count is even and every word is a move; then one turn per pair of words, each the two parsed moves |
| Day02.Examples | src/days/day2.rs:105-121 | the example scores 15 in part 1 and 12 in part 2 |
| Day02.ParseExample | src/days/day2.rs:107-110 | the example's words parse to its three turns |
| Day03.Priority | src/days/day3.rs:34-41 | a..z give 1..26 and A..Z give 27..52; any other character is the panic (`None`) |
| Day03.PriorityRoundTrip | src/days/day3.rs:34-41 | the priority of a letter names it back, and every priority 1..52 is that of a letter |
| Day03.PriorityInjective | src/days/day3.rs:34-41 | distinct letters have distinct priorities |
| Day03.Priorities | src/days/day3.rs:10-11 | the priorities of a string are defined iff every character is a letter, one per character |
| Day03.ItemSet | src/days/day3.rs:10-11 | the collected set contains a priority iff the string holds an item of that priority |
| Day03.Intersection | src/days/day3.rs:14 | an index is in `s1 & s2 & ...` iff it is in every set |
| Day03.Common | src/days/day3.rs:14 | `reduce_sum` of the intersection is the single priority common to all sets; `None` (the debug assertion) iff there is no single one |
| Day03.GroupPriority | src/days/day3.rs:8-14 | the result is the only priority every string of the group holds; `None` when a string has a non-letter or there is no single shared item |
| Day03.LinePriorities | src/days/day3.rs:7-14 | each line's value is the item its two halves `split_at(len / 2)` share |
| Day03.SumAll | src/days/day3.rs:15 | the sum is defined iff every line has a value |
| Day03.Part1 | src/days/day3.rs:4-16 | the answer is defined iff every line's two halves share exactly one item |
| Day03.Groups | src/days/day3.rs:20-22 | the lines split into groups of three iff their count is a multiple of 3 (otherwise `lines[1]` or `lines[2]` panics); group `g` is lines `3g..3g+3`, three lines each |
| Day03.GroupPriorities | src/days/day3.rs:23-30 | one entry per group: the priority its lines share, if exactly one |
| Day03.Part2 | src/days/day3.rs:19-32 | an answer iff the line count is a multiple of 3 and every group of three lines shares exactly one item (otherwise an index or the debug assertion of `reduce_sum` panics) |
| Day04.SupersetMeansContainment | src/days/day4.rs:15-17 | for a non-empty range, `is_superset` holds iff every section of the other range is in this one |
| Day04.OverlapMeansCommonSection | src/days/day4.rs:20-32 | for non-empty ranges, `is_overlapping` holds iff some section lies in both, the naive test the debug build compares it with (lines 61-76) |
| Day04.OverlapSymmetric | src/days/day4.rs:20-32 | `is_overlapping` is symmetric on non-empty ranges and holds when an end meets a start |
| Day04.EmptyRangeOverlaps | src/days/day4.rs:20-32 | on the empty range `5..=3` the shortcut reports an overlap that no section shares |
| Day04.Count | src/days/day4.rs:53-56 | a filtered count never exceeds the number of pairs |
| Day04.CountSnoc | src/days/day4.rs:53-56 | one more pair adds one to the count iff it passes the filter |
| Day04.CountWhere | src/days/day4.rs:53-56 | a filtered count is the number of indices whose pair passes the filter |
| Day04.NaiveMeansCommonSection | src/days/day4.rs:62-68 | the naive test of the debug build holds iff some section lies in both ranges; it implies `is_overlapping`, and agrees with it on non-empty ranges |
| Day04.CountsAgree | src/days/day4.rs:61-76 | for a filter that implies another, the two counts are equal iff no pair passes the second and fails the first |
| Day04.Part1 | src/days/day4.rs:50-57 | the number of pairs in which one range is a superset of the other |
| Day04.Part2 | src/days/day4.rs:59-79 | the number of pairs `is_overlapping` accepts, which is then also the naive count; `None` (the debug `assert_eq!` panics) iff some pair is overlapping by the shortcut but shares no section |
| Day04.Part2NonEmpty | src/days/day4.rs:59-79 | with non-empty ranges the assertion holds and part 2 is the shortcut's count |
| Day04.EmptyRangePanics | src/days/day4.rs:61-76 | the pair `5-3,3-3` makes the debug build panic |
| Day04.ContainedAtMostOverlapping | src/days/day4.rs:50-79 | with non-empty ranges every fully contained pair overlaps |
| Day04.Part1AtMostPart2 | src/days/day4.rs:50-79 | with non-empty ranges part 2 does not panic and part 1 is at most part 2 |
| Day04.Part1Example | src/days/day4.rs:86-94 | two of the example pairs are fully contained |
| Day04.Part2PairsOverlap | src/days/day4.rs:97-110 | eight of the test's pairs overlap by the shortcut |
| Day04.Part2Example | src/days/day4.rs:97-110 | on the test's pairs part 2 gives 8 |
| Day05.Reverse | src/days/day5.rs:32 | `drain(..).for_each(push_front)` lands the block in reverse: entry `i` is the block's entry `len - 1 - i` |
| Day05.ReverseMultiset | src/days/day5.rs:32 | reversing keeps the crates |
| Day05.TotalUpdate | src/days/day5.rs:19-34 | replacing one stack changes the crate total by the difference of the two lengths |
| Day05.MovePreservesTotal | src/days/day5.rs:19-34 | a move keeps the number of crates |
| Day05.MoveShape | src/days/day5.rs:19-34 | a move rewrites only its two stacks and keeps the multiset of their crates |
| Day05.SingleCraneTop | src/days/day5.rs:29-33 | moving one at a time puts the last lifted crate on top; lifting together keeps the old top on top |
| Day05.MoveStep | src/days/day5.rs:19-34 | the move is: the source loses its top `n` crates and the target gains them, reversed unless `reverse` |
| Day05.Storage.DoMove | src/days/day5.rs:19-34 | on a move that does not panic (stack numbers in range and distinct, enough crates) the stacks become the moved stacks; the moves are unchanged |
| Day05.Apply | src/days/day5.rs:72-74 | running the moves in order keeps the number of stacks and of crates, or stops at the first move that would panic |
| Day05.ApplyStep | src/days/day5.rs:72-74 | a valid first move hands its result to the rest of the moves |
| Day05.Tops | src/days/day5.rs:75-79 | `filter_map(pop_front)` yields at most one crate per stack |
| Day05.TopsOfNonEmpty | src/days/day5.rs:75-79 | with no empty stack the answer is the top crate of every stack, in order |
| Day05.RunCrane | src/days/day5.rs:71-79 | the loop over a copy of the storage yields the tops of the stacks after all moves, or `None` if a move panics |
| Day05.Part1 | src/days/day5.rs:70-80 | part 1 is that run with single-crate moves |
| Day05.Part2 | src/days/day5.rs:83-93 | part 2 is that run with moves that lift the crates together |
| Day05.Part1Example | src/days/day5.rs:100-111 | the example ends as `C`/`M`/`ZNDP`, whose tops read "CMZ" |
| Day05.Part1Move1 | src/days/day5.rs:106 | the first example move is valid and gives the first intermediate state |
| Day05.Part1Move2 | src/days/day5.rs:107 | the second example move, one crate at a time |
| Day05.Part1Move3 | src/days/day5.rs:108 | the third example move, one crate at a time |
| Day05.Part1Move4 | src/days/day5.rs:109 | the fourth example move, one crate at a time |
| Day05.Part2Example | src/days/day5.rs:114-125 | with crates lifted together the example ends as `M`/`C`/`DNZP`, whose tops read "MCD" |
| Day05.Part2Move1 | src/days/day5.rs:120 | the first example move, lifted together |
| Day05.Part2Move2 | src/days/day5.rs:121 | the second example move, lifted together |
| Day05.Part2Move3 | src/days/day5.rs:122 | the third example move, lifted together |
| Day05.Part2Move4 | src/days/day5.rs:123 | the fourth example move, lifted together |
| Day05.Columns | src/days/day5.rs:46 | `skip(1).step_by(4)` visits column `j` iff character `1 + 4j` exists |
| Day05.PushCells | src/days/day5.rs:46-50 | pushing a row keeps the number of stacks |
| Day05.PushCellsContents | src/days/day5.rs:46-50 | a row fails iff it puts a crate in a column with no stack (the index panic); otherwise each column's crate goes to the back of its stack |
| Day05.PushCellsNoneStays | src/days/day5.rs:46-50 | once a column fails, the whole row fails |
| Day05.CrateRows | src/days/day5.rs:41-45 | the drawing is the lines before the first line without `[` |
| Day05.EmptyStacks | src/days/day5.rs:39 | `len / 3` empty stacks |
| Day05.PushRows | src/days/day5.rs:41-51 | pushing the rows keeps the number of stacks |
| Day05.TopComesFromHighestRow | src/days/day5.rs:41-51 | a stack's top crate is the one in the highest row that has a crate in that column |
| Day05.PushRowsKeepsFront | src/days/day5.rs:41-51 | later rows only push at the back, so a non-empty stack keeps its top |
| Day05.ParseDrawing | src/days/day5.rs:38-51 | the nested loop over rows and columns computes the drawing's stacks, or `None` when it would panic |
| Day06.Offsets | src/days/day6.rs:9 | the set indices of a window are its bytes minus `b'a'` |
| Day06.OffsetsDistinct | src/days/day6.rs:9 | subtracting `b'a'` keeps bytes apart, so the offsets repeat exactly when the bytes do |
| Day06.LenOfFromSeq | src/days/day6.rs:8-11 | the collected set's `len` is the number of distinct offsets |
| Day06.CardinalityIsLengthIffDistinct | src/days/day6.rs:8-11 | a window has as many distinct entries as bytes iff no entry repeats |
| Day06.WindowIsDistinct | src/days/day6.rs:8-11 | the `find` test holds iff the window's bytes are pairwise distinct |
| Day06.FindFrom | src/days/day6.rs:5-12 | a found position ends a distinct window, and no earlier window from `start` on is distinct |
| Day06.FindFromStep | src/days/day6.rs:5-12 | a distinct window ends the search there; any other window moves it to the next one |
| Day06.FindFromReaches | src/days/day6.rs:5-12 | in a lower-case signal the search stops at the latest at any distinct window |
| Day06.Marker | src/days/day6.rs:5-12 | the marker is the end of the first distinct window of `k` bytes |
| Day06.MarkerFoundIffSomeWindow | src/days/day6.rs:5-12 | in a lower-case signal a marker is found iff some window is distinct (otherwise `unwrap` panics) |
| Day06.LowercaseInRange | src/days/day6.rs:9 | lower-case letters never underflow the subtraction nor overflow the set |
| Day06.Part1 | src/days/day6.rs:4-13 | the result ends the first window of 4 distinct characters |
| Day06.Part2 | src/days/day6.rs:16-25 | the result ends the first window of 14 distinct characters |
| Day06.Part1Example | src/days/day6.rs:32-35 | the example's first marker ends after 7 characters |
| Day06.MarkerAfterSeven | src/days/day6.rs:4-13 | every lower-case signal starting with `mjqjpqm` has its first marker after 7 characters |
| Day07.RootIsKept | src/days/day7.rs:39-47 | from a path under the root, `go_back` and `go_forward` stay under the root, and `go_back` reaches the root exactly from the root or a direct child |
| Day07.GoBackUndoesGoForward | src/days/day7.rs:39-53 | `go_back` after `go_forward` (or `to_forward`) restores the path |
| Day07.StepEffect | src/days/day7.rs:57-78 | `cd /` resets to the root, `ls` changes nothing, `cd` leaves the listings alone, and `dir`/file lines insert (or overwrite) one child of the current directory and change nothing else |
| Day07.StepKeepsRoot | src/days/day7.rs:57-78 | every command keeps the current directory under the root |
| Day07.RunKeepsRoot | src/days/day7.rs:133-136 | the whole log keeps the current directory under the root |
| Day07.SumOverRemove | src/days/day7.rs:83-90 | the sum over hash-map children is the same whichever child is taken first |
| Day07.SumOverCongruent | src/days/day7.rs:83-90 | sums over the same children agree when the children's sizes agree |
| Day07.MaxDepth | src/days/day7.rs:80-94 | no visited path is deeper than the bound that makes the size recursion terminate |
| Day07.ChildSizes | src/days/day7.rs:83-90 | one size per child of the directory: the file's size or the sub-directory's size |
| Day07.SizeIgnoresOtherDirs | src/days/day7.rs:80-94 | relisting a directory that is not at or below a path leaves that path's size unchanged |
| Day07.PrefixOfChild | src/days/day7.rs:86 | a path at or below a child is at or below the parent |
| Day07.NewFileAddsItsSize | src/days/day7.rs:70-76 | listing a new file adds exactly its size to the current directory's size |
| Day07.SmallSizes | src/days/day7.rs:140-142 | one entry per visited directory, its size when below 100000 and 0 otherwise |
| Day07.Terminal.constructor | src/days/day7.rs:32-36 | the default terminal is at the root with nothing seen |
| Day07.Terminal.RunCmd | src/days/day7.rs:57-78 | the terminal's new state is one step of the log |
| Day07.Terminal.GetSize | src/days/day7.rs:80-94 | the loop over the children returns the directory's size: its files plus its sub-directories, 0 if never listed |
| Day07.Terminal.RunAll | src/days/day7.rs:133-136 | replaying the lines gives the state of the whole log |
| Day07.Part1 | src/days/day7.rs:132-143 | the answer is the sum, over the visited directories, of the sizes below 100000 |
| Day07.Part2 | src/days/day7.rs:146-160 | an answer exists iff the root uses at least 40000000 (else the subtraction underflows); it is the size of a directory, at least the required space, and no larger than any directory that frees enough |
| Day08.New | src/days/day8.rs:8-17 | a grid is made iff there is a first row; the width is its length and the height the number of rows |
| Day08.Get | src/days/day8.rs:20-25 | `get` is the height at the cell when it is on the grid and `None` otherwise |
| Day08.ParseRow | src/days/day8.rs:33 | a row parses iff every character is a digit, one height per character |
| Day08.ParseRows | src/days/day8.rs:29-36 | one parsed row per line |
| Day08.EdgeTreesVisible | src/days/day8.rs:42-56 | a tree on the edge is visible |
| Day08.IsClear | src/days/day8.rs:45-55 | the walk in one direction reports clear iff every tree up to the edge is strictly shorter |
| Day08.IsVisible | src/days/day8.rs:42-56 | the `filter` closure holds iff the tree is clear in some direction |
| Day08.CountRow | src/days/day8.rs:41-56 | a row has at most as many visible trees as cells |
| Day08.VisibleInRow | src/days/day8.rs:41-56 | the inner loop counts the visible trees of a row |
| Day08.Part1 | src/days/day8.rs:40-58 | the answer is the number of visible trees |
| Day08.CountRowBounds | src/days/day8.rs:42-56 | a top or bottom row is fully visible, and any row shows at least its two end trees |
| Day08.EdgeTreesCounted | src/days/day8.rs:40-58 | at least `4 (n - 1)` trees of an `n`-by-`n` grid are visible |
| Day08.ViewMeaning | src/days/day8.rs:67-83 | a view distance counts the shorter trees and then the first tree at least as tall, and is 0 on the edge |
| Day08.DirScore | src/days/day8.rs:67-83 | the `while` loop in one direction returns the view distance |
| Day08.EdgeScoreIsZero | src/days/day8.rs:66-87 | a tree on the edge scores 0 |
| Day08.Scenic | src/days/day8.rs:66-87 | the `map` closure returns the product of the four view distances |
| Day08.DominatesStep | src/days/day8.rs:86-87 | after one more tree the running maximum still bounds every score seen |
| Day08.DominatesRow | src/days/day8.rs:86-87 | a finished row carries the bound to the next row |
| Day08.Part2 | src/days/day8.rs:62-89 | the answer is the score of some tree, and no tree scores more |
| Day09.FollowMovesIffApart | src/days/day9.rs:29-38 | a knot moves exactly when it is more than 1 away on some axis from the knot before it |
| Day09.FollowCloses | src/days/day9.rs:32-34 | a knot at most 2 away is pulled back to touch, moving at most one step on each axis |
| Day09.Settle | src/days/day9.rs:44-56 | the window walk from `a` on keeps the length and leaves the knots up to `a` alone |
| Day09.SettleTightens | src/days/day9.rs:27-40 | if the rope touches from knot `a + 1` on and knot `a` is at most 2 away, it touches from `a` on after the walk |
| Day09.StepKeepsTight | src/days/day9.rs:21-40 | after a head step of at most one on each axis, every pair of adjacent knots touches again |
| Day09.Zeros | src/days/day9.rs:17 | `part_count` knots at the origin |
| Day09.Rope.constructor | src/days/day9.rs:15-19 | `Rope::new` puts every knot at the origin |
| Day09.Rope.CheckTail | src/days/day9.rs:27-56 | the window loop settles every knot in order and inserts the last knot's position iff the last window moved it |
| Day09.Rope.DoMove | src/days/day9.rs:21-25 | only the head takes the delta; then the knots settle and the tail's move is recorded |
| Day09.Repeat | src/days/day9.rs:85-87 | `count` head steps keep the number of knots |
| Day09.RunMoves | src/days/day9.rs:84-88 | all the moves keep the number of knots |
| Day09.RepeatMove | src/days/day9.rs:85-87 | the inner loop computes `count` head steps |
| Day09.StepKeepsGood | src/days/day9.rs:21-40 | a unit step keeps the rope touching, keeps every visited position and records the tail |
| Day09.RepeatKeepsGood | src/days/day9.rs:85-87 | so do `count` unit steps |
| Day09.RunKeepsGood | src/days/day9.rs:84-88 | over a run of unit moves the rope keeps touching, the origin stays visited and the last knot's position is always visited |
| Day09.StartIsGood | src/days/day9.rs:81-83 | the start of both parts is good: every knot at the origin, which is visited |
| Day09.Simulate | src/days/day9.rs:80-103 | the loops count the positions of the run's visited set |
| Day09.Part1 | src/days/day9.rs:80-90 | part 1 is the run with 2 knots |
| Day09.Part2 | src/days/day9.rs:93-103 | part 2 is the run with 10 knots |
| Day09.AnswerAtLeastOne | src/days/day9.rs:83 | both answers are at least 1, since the origin stays in the set |
| Day09.ParseDirection | src/days/day9.rs:67-73 | U, D, L and R are the four unit steps and any other word is the panic |
| Day09.ParseLine | src/days/day9.rs:63-75 | a line parses iff it has a direction word and a `usize` count; the move is one unit step with that count |
| Day09.ParseLines | src/days/day9.rs:60-77 | parsing succeeds iff every line parses, one move per line |
| Day09.ParsedMovesAreUnit | src/days/day9.rs:60-77 | parsed moves are unit steps, as the rope lemmas require |
| Day10.Expand | src/days/day10.rs:25-29 | `noop` expands to one entry and `addx` to two, one entry per cycle |
| Day10.ExpandAll | src/days/day10.rs:18-31 | the expanded program has one entry per cycle of the instructions |
| Day10.ParseLine | src/days/day10.rs:21-29 | a line parses iff it is `noop` (anything after is ignored) or `addx` with an `i32` argument; otherwise it panics |
| Day10.ParseLines | src/days/day10.rs:17-32 | parsing succeeds iff every line parses, one instruction per line |
| Day10.XAfterPrefix | src/days/day10.rs:36-39 | the register after `n` entries does not depend on later entries |
| Day10.RegisterAfterInstructions | src/days/day10.rs:7-14 | after the first `k` instructions have run, X is 1 plus the sum of their `addx` arguments, and during the second cycle of an `addx` it is not yet changed |
| Day10.RegisterBefore | src/days/day10.rs:36-39 | a later instruction does not change X during the earlier ones |
| Day10.RegisterAtEnd | src/days/day10.rs:36-39 | after the last instruction X has taken every addition |
| Day10.Part1 | src/days/day10.rs:35-45 | the loop sums `(i + 2) * x` after entry `i` at the cycles 20, 60, ..., 220 |
| Day10.RemoveNewlinesConcat | src/days/day10.rs:60-62 | dropping line ends distributes over concatenation |
| Day10.RemoveNewlinesNone | src/days/day10.rs:60-62 | a string without line ends is unchanged |
| Day10.RowsShape | src/days/day10.rs:60-62 | the fold keeps every pixel in order and adds one line end per started row of 40 |
| Day10.Part2 | src/days/day10.rs:48-63 | the screen is a line end followed by the rows of the pixel buffer, pixel `ci` lit iff `ci % 40` is within 1 of X before entry `ci` |
| Day10.ScreenHoldsPixels | src/days/day10.rs:48-63 | the screen gives back exactly the pixels, one line end per row |
| Day11.FromScalar | src/days/day11.rs:18-21 | a scalar becomes a vector of its remainder, by Rust's `%`, modulo every test number |
| Day11.Run | src/days/day11.rs:23-60 | a scalar changes by the operation; a vector keeps its moduli and the number of residues |
| Day11.RunResidues | src/days/day11.rs:27-29 | the residue loop computes `Run` on the vector |
| Day11.ScalarAdd | src/days/day11.rs:23-32 | `scalar_add` computes `Run` of an addition |
| Day11.ScalarMul | src/days/day11.rs:34-43 | `scalar_mul` computes `Run` of a multiplication |
| Day11.SquareNumber | src/days/day11.rs:51-60 | `square` computes `Run` of squaring |
| Day11.RunOperation | src/days/day11.rs:89-95 | `Operation::run` dispatches to the three methods |
| Day11.Div3 | src/days/day11.rs:45-49 | a vector is unchanged; a scalar is divided by 3 rounding toward zero, and a non-negative one lands in `[3r, 3r + 3)` |
| Day11.DivisibleByScalar | src/days/day11.rs:62-65 | true iff the number is a scalar divisible by the test number |
| Day11.DivisibleByMonkey | src/days/day11.rs:67-70 | true iff the number is a vector whose residue at the monkey's index is 0 |
| Day11.FromScalarTracks | src/days/day11.rs:18-21 | the converted vector holds the residues of the value |
| Day11.ResidueStep | src/days/day11.rs:28 | reducing before the operation gives the residue of the new value |
| Day11.RunTracks | src/days/day11.rs:23-60 | after the operation, every residue is still the remainder of the true value |
| Day11.DivisibleTracks | src/days/day11.rs:67-70 | the residue test agrees with divisibility of the true value |
| Day11.Queues | src/days/day11.rs:150 | the starting queues are the monkeys' items |
| Day11.Inspect | src/days/day11.rs:159-160 | inspecting keeps the number well formed and of the same kind |
| Day11.Target | src/days/day11.rs:161-165 | the item goes to one of the monkey's two targets |
| Day11.Push | src/days/day11.rs:171 | `push_back` appends to the target queue and leaves the others unchanged |
| Day11.Deliver | src/days/day11.rs:157-172 | queues only grow at the back, and the thrower's own queue is not touched |
| Day11.DeliverStep | src/days/day11.rs:157-172 | delivering a non-empty list is one throw followed by the rest |
| Day11.Turn | src/days/day11.rs:157-172 | a turn keeps every item within the troop |
| Day11.Zeros | src/days/day11.rs:151 | `vec![0; n]` |
| Day11.RoundFrom | src/days/day11.rs:153-173 | a round keeps the queues well formed and one count per monkey |
| Day11.Rounds | src/days/day11.rs:152-174 | repeated rounds keep the queues well formed and one count per monkey |
| Day11.Throw | src/days/day11.rs:159-171 | one drained item is inspected and pushed onto its target's queue |
| Day11.DoTurn | src/days/day11.rs:157-172 | the drain loop computes `Turn`, and the monkey's count rises by the size of its queue |
| Day11.DrainStart | src/days/day11.rs:157 | the drain loop's invariant holds before the first item |
| Day11.DrainStep | src/days/day11.rs:157-172 | one throw keeps the drain loop's invariant |
| Day11.DoRound | src/days/day11.rs:153-173 | the loop over monkeys computes `RoundFrom` from monkey 0 |
| Day11.Simulate | src/days/day11.rs:151-174 | the loop over rounds computes the counts of `Rounds` from zero counts |
| Day11.TotalUpdate | src/days/day11.rs:171 | replacing one queue changes the total by the difference of sizes |
| Day11.DeliverTotal | src/days/day11.rs:166-171 | delivering `n` items adds exactly `n` items to the troop |
| Day11.TurnDrains | src/days/day11.rs:157-172 | a turn empties the monkey's queue, keeps the others as prefixes of their new queues and keeps the number of items |
| Day11.RoundKeepsTotal | src/days/day11.rs:166-171 | when no monkey throws to itself, a round keeps the number of items |
| Day11.RoundCountsGrow | src/days/day11.rs:158 | counts only grow, and a monkey's count is final once its turn is over |
| Day11.MonkeyBusiness | src/days/day11.rs:175-176 | the sort followed by the product of the last two values |
| Day11.TopTwoIsLargest | src/days/day11.rs:175-176 | no two monkeys' counts multiply to more than the result |
| Day11.SortedPairBound | src/days/day11.rs:176 | in a sorted list of non-negative values, two positions multiply to at most the last two |
| Day11.TopTwoIsAttained | src/days/day11.rs:175-176 | two distinct monkeys' counts give exactly the result |
| Day11.Part1 | src/days/day11.rs:148-177 | 20 rounds with relief from the parsed items, then the product of the two largest counts |
| Day11.TestMods | src/days/day11.rs:181 | the test numbers in monkey order |
| Day11.Converted | src/days/day11.rs:183-189 | every item becomes its vector of residues modulo all test numbers |
| Day11.Part2 | src/days/day11.rs:179-215 | conversion, 10000 rounds without relief, then the product of the two largest counts |
| Day11.WorryDeliver | src/days/day11.rs:196-209 | the unbounded values, with no relief and the test applied to the value: one value per thrown item |
| Day11.WorryRoundFrom | src/days/day11.rs:192-211 | the reference round on the values keeps one queue and one count per monkey |
| Day11.WorryRounds | src/days/day11.rs:191-212 | the reference rounds keep one queue and one count per monkey |
| Day11.DeliverSimulates | src/days/day11.rs:196-209 | delivering residue vectors mirrors delivering the values they track |
| Day11.TurnSimulates | src/days/day11.rs:196-209 | a turn on residues mirrors the turn on values and inspects as many items |
| Day11.ClearQueue | src/days/day11.rs:196 | draining a queue in both keeps the residues tracking the values |
| Day11.RoundSimulates | src/days/day11.rs:192-211 | a round on residues gives the queues tracking the values and the same counts |
| Day11.RoundsSimulate | src/days/day11.rs:191-212 | any number of rounds on residues gives the same counts as on the values |
| Day11.Values | src/days/day11.rs:183-189 | the worry values of the parsed items, queue by queue |
| Day11.Part2CountsAreExact | src/days/day11.rs:179-215 | the counts of part 2 are the counts the unbounded values would give |
| Day12.CanStepMeaning | src/days/day12.rs:24-27 | going forward, a step climbs at most one level; in reverse, a step is exactly a forward step taken backwards |
| Day12.FilterMeaning | src/days/day12.rs:15-31 | the filter keeps exactly the shifted cells that are in bounds and allowed |
| Day12.Neighbors | src/days/day12.rs:13-32 | every neighbour returned is in bounds |
| Day12.NeighborsMeaning | src/days/day12.rs:13-32 | the neighbours are exactly the orthogonally adjacent in-bounds cells the elevation rule allows |
| Day12.Row | src/days/day12.rs:48-60 | one elevation per character, with `S` as `a` and `E` as `z` |
| Day12.Rows | src/days/day12.rs:47-61 | one row of elevations per line |
| Day12.LastInRow | src/days/day12.rs:48-57 | the last column holding the marker, or `None` when the row has none |
| Day12.Locate | src/days/day12.rs:45-57 | the marker's last occurrence in reading order wins, since every occurrence overwrites the position |
| Day12.Parse | src/days/day12.rs:44-69 | parsing succeeds iff there is a line; the height is the number of lines and the width that of the first line |
| Day12.MarkersElevation | src/days/day12.rs:50-57 | the start marker stands at elevation `a` and the summit marker at `z` |
| Day12.CellsClosed | src/days/day12.rs:18-20 | no step leaves the map |
| Day12.WalkIsSearchWalk | src/days/day12.rs:93 | the search's walks are exactly the walks of allowed steps |
| Day12.GoalWalkWithin | src/days/day12.rs:88-98 | a goal walk of `n` steps puts a goal within `n` steps of the search |
| Day12.WithinGoalWalk | src/days/day12.rs:88-98 | a goal within `k` steps of the search is the end of a goal walk of at most `k` steps |
| Day12.Bfs | src/days/day12.rs:81-101 | the result is the length of a shortest walk to a goal cell, and `None` (where the source panics) iff no goal can be reached |
| Day12.Part1 | src/days/day12.rs:71-74 | the fewest steps from the start marker to the summit |
| Day12.Part2 | src/days/day12.rs:76-79 | the fewest steps down from the summit to any cell of elevation `a` |
| Day13.IntoList | src/days/day13.rs:12-17 | the result is always a list: a list stays, a number becomes the one-element list holding it |
| Day13.ComparePair | src/days/day13.rs:19-41 | the loop over the index computes the recursive ordering `Compare` |
| Day13.CompareSelf | src/days/day13.rs:19-41 | nothing decides between an item and itself |
| Day13.CompareFlip | src/days/day13.rs:19-41 | exchanging the sides exchanges the answer |
| Day13.NumberAsList | src/days/day13.rs:38-39 | a number compares exactly as the one-element list holding it, on either side |
| Day13.AsLists | src/days/day13.rs:19-41 | every comparison is the comparison of the two lists the items stand for |
| Day13.PrefixComesFirst | src/days/day13.rs:25-33 | a list comes before every longer list it is a prefix of, and is undecided against itself |
| Day13.CompareTrans | src/days/day13.rs:19-41 | the ordering is transitive, and strict unless both steps are undecided |
| Day13.CmpAntisymmetric | src/days/day13.rs:44-64 | `Less` one way is `Greater` the other, and `Eq` is reflexive and symmetric |
| Day13.LeTotalPreorder | src/days/day13.rs:50-64 | the `Ord` made from `compare_pair` is a total preorder, so sorting by it is well defined |
| Day13.Scan | src/days/day13.rs:68-96 | the reading position only advances and never passes the end of the line |
| Day13.ParseItems | src/days/day13.rs:68-96 | the byte-by-byte loop, recursing on `[`, computes `Scan` |
| Day13.ParsePairs | src/days/day13.rs:99-113 | one pair per group of lines, each the parse of that group |
| Day13.ScanChars | src/days/day13.rs:93 | characters other than brackets and commas only extend the number being read |
| Day13.ScanItem | src/days/day13.rs:73-91 | reading a printed item followed by a comma or `]` adds it to the level |
| Day13.ScanElems | src/days/day13.rs:68-96 | reading the printed elements of a list and its `]` yields exactly those elements |
| Day13.ParseShow | src/days/day13.rs:104-107 | parsing gives back every printed list of `i32` numbers, `[]` included |
| Day13.BareNumberFails | src/days/day13.rs:78-107 | a bare number is never flushed, so `list[0]` panics |
| Day13.Part1 | src/days/day13.rs:115-123 | the sum is defined iff every pair is decided, as `unwrap` demands |
| Day13.Part1Swapped | src/days/day13.rs:115-123 | exchanging the packets of every pair moves exactly the out-of-order pairs into order: the two sums add to `n(n + 1)/2` |
| Day13.Flatten | src/days/day13.rs:129-133 | the `flat_map` lists two packets per pair |
| Day13.Position | src/days/day13.rs:138-139 | the first index of an item equal to `x`, or `None` when there is none |
| Day13.CountLessPermutation | src/days/day13.rs:137 | the number of packets before `x` does not depend on their order |
| Day13.PositionIsCountLess | src/days/day13.rs:137-139 | in sorted packets the first one equal to `x` sits right after all packets before `x` |
| Day13.Part2 | src/days/day13.rs:125-140 | the key is the product of one plus the packets before `[[2]]` and two plus the packets before `[[6]]` |
| Day13.DecoderKey | src/days/day13.rs:134-139 | with `a` before `b` added and sorted, the positions are the counts of packets before each, `b` also after `a` |
| Day13.SortPackets | src/days/day13.rs:137 | the sorted packets are ordered and a permutation of the input |
| Day13.Key | src/days/day13.rs:138-139 | the product of two 1-based positions is at least each of them |
| Day13.Rank | src/days/day13.rs:137-139 | the first packet equal to `x` in the sorted list sits after the packets before `x` in the input |
| Day13.Ranks | src/days/day13.rs:134-139 | with the two dividers added, each sits after the packets before it, the second also after the first |
| Day13.DividersInOrder | src/days/day13.rs:127-128 | `[[2]]` comes before `[[6]]` |
| Day14.Normalise | src/days/day14.rs:139-142 | the segment's `start` is at most its `end` on both axes |
| Day14.CellsIn | src/days/day14.rs:161-162 | the cells of a segment are exactly the points of its box |
| Day14.NormaliseCells | src/days/day14.rs:133-142 | normalising keeps exactly the cells between the two points, so no rock is lost |
| Day14.InRocks | src/days/day14.rs:177-183 | a cell is a rock iff it lies on some segment |
| Day14.ParsePoints | src/days/day14.rs:122-129 | one point per ` -> ` piece |
| Day14.Windows | src/days/day14.rs:130-144 | one normalised segment per pair of consecutive points |
| Day14.BoundsContain | src/days/day14.rs:118-138 | every segment lies within the bounds, which are in order once there is a segment |
| Day14.Parse | src/days/day14.rs:117-155 | the grid is empty, no block is set, and the shape matches the bounds; `None` where an `unwrap` panics or there is no segment |
| Day14.Empty | src/days/day14.rs:147 | a `width` by `height` grid of zeros |
| Day14.PointsNatural | src/days/day14.rs:125 | parsed coordinates are non-negative, as `usize` |
| Day14.SegmentsNormalised | src/days/day14.rs:119-146 | every parsed segment is normalised and non-negative |
| Day14.FixCoords | src/days/day14.rs:108-113 | a column index exists iff x is within the bounds |
| Day14.FirstSolid | src/days/day14.rs:43 | the distance below `y` of the first solid cell, or `None` when the rest of the column is free |
| Day14.SettleRests | src/days/day14.rs:44-69 | a grain that starts in a free cell rests in a free cell inside the grid, not in column 0, with the three cells below taken, at most one column aside per row fallen |
| Day14.SpawnVoid | src/days/day14.rs:40-72 | outside the bounds, or with nothing solid below, the grain is lost |
| Day14.SettleAnywhere | src/days/day14.rs:44-69 | a grain that starts anywhere in the grid rests in it, not in column 0, with the three cells below taken, and in a free cell unless it never left a taken one |
| Day14.SpawnRests | src/days/day14.rs:39-73 | where a grain is placed the three cells below it are taken; the cell was free when the source is in row 0 or the cell above the source is free (for a solid source the fall restarts one row up, and in row 0 the wrap-around is lost) |
| Day14.DepositTakesFreeCell | src/days/day14.rs:67 | each placed grain takes exactly one free cell, so the pouring ends |
| Day14.DepositRect | src/days/day14.rs:67 | placing a grain keeps the grid's shape |
| Day14.PourStep | src/days/day14.rs:168-170 | one grain placed from (500, 0) means one more in the count and one free cell fewer |
| Day14.PaintColumn | src/days/day14.rs:162-164 | the column with the cells `lo..=hi` set to 1 and the rest unchanged |
| Day14.PaintBox | src/days/day14.rs:161-165 | the grid with a box of cells set to 1 and the rest unchanged |
| Day14.Draw | src/days/day14.rs:160-166 | drawing a segment keeps the number of columns |
| Day14.Grid.constructor | src/days/day14.rs:159 | the clone has the parsed state |
| Day14.Grid.Set | src/days/day14.rs:26-29 | exactly one cell changes, addressed by its x in the cave |
| Day14.Grid.SpawnSand | src/days/day14.rs:39-73 | `Placed` iff the grain has a resting cell, which is then written; nothing else changes. The fall starts one row above the first solid cell at or below the source, so a solid source below row 0 restarts one row up |
| Day14.Grid.SpawnSandTilTop | src/days/day14.rs:75-106 | `Placed` iff the source is not blocked, and then the grain's resting cell is added to `blocks` |
| Day14.Grid.DrawLine | src/days/day14.rs:161-165 | the nested loops paint the segment |
| Day14.Grid.DrawColumn | src/days/day14.rs:162-164 | the inner loop paints the segment's cells of one column |
| Day14.Grid.DrawRocks | src/days/day14.rs:160-166 | every segment is painted in order |
| Day14.Grid.PourAll | src/days/day14.rs:167-171 | the count of grains placed from (500, 0) until one is lost |
| Day14.Grid.BlockRocks | src/days/day14.rs:177-183 | `blocks` gains exactly the rock cells |
| Day14.Grid.FillAll | src/days/day14.rs:185-189 | the count of grains placed from (500, 0) until the source is blocked |
| Day14.Grid.BlockLine | src/days/day14.rs:178-182 | `blocks` gains exactly the cells of the segment |
| Day14.VisitedAll | src/days/day14.rs:178-182 | after both loops every cell of the segment has been visited |
| Day14.DrawAll | src/days/day14.rs:160-166 | the grid after all segments are drawn keeps its columns |
| Day14.DrawAllRocks | src/days/day14.rs:160-183 | part 1 paints a cell iff part 2 blocks it: 1 on a rock, as parsed elsewhere |
| Day14.Drawn | src/days/day14.rs:159-166 | the drawn cave keeps the parsed shape |
| Day14.Part1 | src/days/day14.rs:157-172 | the grains poured from (500, 0) onto the drawn rocks until one is lost |
| Day14.DropRests | src/days/day14.rs:88-105 | a grain from a free cell rests above the floor in a free cell inside the cone below its start, with the three cells below blocked |
| Day14.PlacedAddsOne | src/days/day14.rs:103 | each placed grain adds exactly one new block |
| Day14.Part2 | src/days/day14.rs:174-190 | the grains poured from (500, 0) onto the rocks and the floor at `max_y + 2` until the source is blocked |
| Day15.DistMetric | src/days/day15.rs:16-18 | the Manhattan distance is symmetric, zero only on the point itself, and obeys the triangle inequality |
| Day15.MakeSensor | src/days/day15.rs:67-72 | a sensor records its beacon and the distance to it |
| Day15.Parse | src/days/day15.rs:58-82 | one sensor per reading, in order, each knowing its distance to its beacon, with both inside the x bounds |
| Day15.BoundsContain | src/days/day15.rs:62-74 | the x bounds contain every sensor and beacon |
| Day15.MaxDist | src/days/day15.rs:91-96 | the largest distance from a sensor to its beacon: an upper bound reached by some sensor |
| Day15.CountRow | src/days/day15.rs:97-104 | the count is the number of ruled-out positions of the row in the range |
| Day15.Part1 | src/days/day15.rs:84-105 | defined iff there is a sensor (as `max().unwrap()` needs); the ruled-out positions of the row between `min_x - max_dist` and `max_x + max_dist` |
| Day15.Part1CountsAll | src/days/day15.rs:97 | the scanned range holds every ruled-out position of any row, so part 1 counts them all |
| Day15.UndetectedNotCovered | src/days/day15.rs:101-123 | a position that no sensor detects is not ruled out by part 1 either |
| Day15.AnyBorder | src/days/day15.rs:22-54 | a found position is in the box, on the sensor's visited ring and satisfies the predicate; `None` means no visited ring position in the box does |
| Day15.RingColumn | src/days/day15.rs:29-51 | the ring positions at each column offset are exactly the four corners the loop body tries |
| Day15.FindHole | src/days/day15.rs:114-127 | the first sensor whose ring yields an undetected position of the box; `None` iff no ring holds one |
| Day15.Part2 | src/days/day15.rs:107-130 | the tuning frequency of an undetected position in the box on some sensor's ring; `None` (where `unwrap` panics) iff there is none |
| Day15.FramedHoleScanned | src/days/day15.rs:29-51 | an undetected position whose neighbour above is in a sensor's range lies on that sensor's ring, so part 2 finds a hole |
| Day16.NameMap | src/days/day16.rs:45-49 | each name maps to the number of its line |
| Day16.Resolve | src/days/day16.rs:59 | every tunnel's name is looked up; `None` (where the lookup panics) iff some tunnel names no valve |
| Day16.Nodes | src/days/day16.rs:50-64 | one node per line, under its line number, with its tunnels resolved |
| Day16.Links | src/days/day16.rs:90 | the graph of tunnels that `dijkstra` walks, one list per key |
| Day16.HopsFrom | src/days/day16.rs:79-81 | the least number of tunnels to a valve, and `i32::MAX` when it is unreached |
| Day16.Hops | src/days/day16.rs:71-100 | each valve's hop count: reachable within it and not within fewer, or `i32::MAX` |
| Day16.ReachStep | src/days/day16.rs:90-91 | one tunnel more reaches one step further |
| Day16.MinExists | src/days/day16.rs:86 | a non-empty heap has a least entry for `pop` |
| Day16.Dijkstra | src/days/day16.rs:71-100 | every valve ends with its hop count from the source, an unreached one with `i32::MAX` |
| Day16.Popped | src/days/day16.rs:86-89 | popping an entry leaves only its valve's tunnels to relax, and a stale entry leaves none |
| Day16.Settle | src/days/day16.rs:90-96 | the loop over tunnels relaxes every tunnel out of the node and never raises the distances plus the heap size |
| Day16.Relax | src/days/day16.rs:91-95 | one relaxation step keeps the loop invariants |
| Day16.Lowered | src/days/day16.rs:92-95 | lowering a distance to one past the node's and queueing it keeps every invariant |
| Day16.LoweredSound | src/days/day16.rs:92-95 | lowering the distance keeps every distance an upper bound reached by some walk |
| Day16.LoweredRelaxed | src/days/day16.rs:92-95 | lowering the distance relaxes that tunnel |
| Day16.DistIsHops | src/days/day16.rs:86-99 | once the heap is empty, the distances are the hop counts |
| Day16.WithinReach | src/days/day16.rs:86-97 | relaxed distances are at most the number of tunnels taken |
| Day16.ReachBack | src/days/day16.rs:90-91 | a valve within `k > 0` tunnels is within `k - 1` or one tunnel from one that is |
| Day16.RelaxedEdge | src/days/day16.rs:92 | a relaxed tunnel leaves its end at most one further than its start |
| Day16.NeighborsOf | src/days/day16.rs:164-174 | the neighbours are other valves with a positive flow rate, at their distance |
| Day16.NeighborsComplete | src/days/day16.rs:166-173 | no valve with a positive flow rate other than the parent is left out |
| Day16.HopsTable | src/days/day16.rs:160-162 | one table of hop counts per kept valve |
| Day16.KnownPaths | src/days/day16.rs:160-162 | the loop runs `dijkstra` from each kept valve |
| Day16.Prepare | src/days/day16.rs:152-179 | the set-up computes the prepared map |
| Day16.AttachNeighbors | src/days/day16.rs:163-176 | each kept valve gets its neighbours from its distances |
| Day16.PreparedReady | src/days/day16.rs:152-179 | the prepared map holds every valve its neighbours name, `AA` included |
| Day16.Best | src/days/day16.rs:102-148 | the recursive value `move_valve` computes is never negative |
| Day16.ChildrenMax | src/days/day16.rs:122-140 | the maximum over the neighbours reachable in time and not visited is never negative |
| Day16.ChildBelowMax | src/days/day16.rs:125-139 | every eligible neighbour's value is at most the maximum |
| Day16.ArgMax | src/days/day16.rs:125-139 | the maximum is the value of some eligible neighbour |
| Day16.PlanAtMostBest | src/days/day16.rs:102-148 | no route releases more than `Best` |
| Day16.BestAchieved | src/days/day16.rs:102-148 | some route releases exactly `Best`, so it is the greatest pressure of any route |
| Day16.MoveValve | src/days/day16.rs:102-148 | the memoised recursion returns `Best`, and the memo only holds values that are `Best` at their state |
| Day16.Part1 | src/days/day16.rs:150-188 | the most pressure one player releases in 30 minutes from `AA` |
| Day16.Part2 | src/days/day16.rs:190-228 | the most pressure released in 26 minutes by one player and then the elephant |
| Day17.Rock | src/days/day17.rs:110-120 | the `k`-th rock is one of the five shapes, repeating every five rocks, with its height |
| Day17.Cells | src/days/day17.rs:61-62 | the cells of a rock are its area offsets from the top-left corner, y going down |
| Day17.RemoveAllCells | src/days/day17.rs:69-71 | removing the old cells frees exactly those cells and keeps the rest |
| Day17.InsertAllCells | src/days/day17.rs:72-74 | inserting the new cells sets exactly those cells to the rock's number |
| Day17.MoveEffect | src/days/day17.rs:54-76 | the move is all or nothing: a blocked move changes nothing; a free one shifts the corner by the direction, sets every shifted cell and frees only the cells left |
| Day17.MoveInside | src/days/day17.rs:34-64 | after a free move every cell of the rock is inside the chamber |
| Day17.StepDown | src/days/day17.rs:78-82 | a step that does not rest lowers the corner by one and keeps it at or above the floor |
| Day17.MoveNonEmpty | src/days/day17.rs:54-76 | a move keeps a grid with cells non-empty, and a free move leaves the rock's cells in it |
| Day17.DropNonEmpty | src/days/day17.rs:130-136 | a rock dropped onto a grid with cells, or whose first step does not rest, leaves cells behind |
| Day17.FirstStepFree | src/days/day17.rs:120-136 | the first rock, a line at (2, 3) above the empty floor, does not rest on its first step, whichever way the jet pushes |
| Day17.MoveOnEmpty | src/days/day17.rs:54-76 | a move on the empty grid leaves only the rock's own cells |
| Day17.PushedLine | src/days/day17.rs:34-76 | the first rock, pushed either way, stays inside the chamber in row 3 |
| Day17.DownFree | src/days/day17.rs:34-43 | a rock clear of the walls and the floor, in a grid of its own cells, is not obstructed one row down |
| Day17.Drop | src/days/day17.rs:130-136 | the jet index stays within the pattern |
| Day17.MaxY | src/days/day17.rs:122-128 | the highest y of the cells, an upper bound reached by some cell, and -1 for none |
| Day17.MaxYUnique | src/days/day17.rs:122-128 | any bound reached by a cell is the highest y |
| Day17.TopY | src/days/day17.rs:122-128 | the scan over the keys computes the highest y |
| Day17.Pick | src/days/day17.rs:122-125 | the next element in a hash set's iteration order is a member |
| Day17.Tower | src/days/day17.rs:118-138 | the state after `k` rocks keeps the jet index within the pattern |
| Day17.Fall | src/days/day17.rs:120-136 | one rock spawned and fallen keeps the jet index within the pattern |
| Day17.FallNonEmpty | src/days/day17.rs:120-136 | a rock falling onto a grid with cells leaves cells |
| Day17.FirstFallNonEmpty | src/days/day17.rs:120-136 | the first rock, falling onto the empty floor, leaves cells |
| Day17.Spawned | src/days/day17.rs:129 | `Fall` drops the rock from `(2, max_y + 3 + height)` |
| Day17.SpawnClear | src/days/day17.rs:129 | a spawned rock's cells are free, two to five cells from the left wall and at least four rows above the tower |
| Day17.Grid.constructor | src/days/day17.rs:27-32 | an empty chamber and the first jet |
| Day17.Grid.MoveAll | src/days/day17.rs:54-76 | the three loops compute `Move` and leave the jet alone |
| Day17.Grid.PlanMoves | src/days/day17.rs:60-68 | blocked iff some shifted cell is obstructed; otherwise each cell's old and new place |
| Day17.Grid.Vacate | src/days/day17.rs:69-71 | every old cell is removed |
| Day17.Grid.Occupy | src/days/day17.rs:72-74 | every new cell takes the rock's number |
| Day17.Grid.DoMove | src/days/day17.rs:78-82 | a jet push and then a fall, as `Step` |
| Day17.Grid.DropPiece | src/days/day17.rs:130-136 | the loop computes `Drop`, and the jet direction is that of the new index |
| Day17.Grid.Place | src/days/day17.rs:120-136 | one rock of the loop computes `Fall` |
| Day17.Part1 | src/days/day17.rs:106-140 | the height of the tower after 2022 rocks |
| Day17Cycle.MinY | src/days/day17.rs:88-93 | the lowest y, a lower bound reached by some cell, and 0 for none |
| Day17Cycle.MinYUnique | src/days/day17.rs:88-93 | any bound reached by a cell is the lowest y |
| Day17Cycle.PosLeTotal | src/days/day17.rs:97 | the order on positions is a total preorder |
| Day17Cycle.DistinctCounts | src/days/day17.rs:87 | a sequence without repeats holds each element once |
| Day17Cycle.CountsDistinct | src/days/day17.rs:97 | a sequence holding each element at most once has no repeats |
| Day17Cycle.SetToSortedVec | src/days/day17.rs:85-99 | the result is the sorted list of the cells shifted down by the lowest y |
| Day17Cycle.Keys | src/days/day17.rs:87 | every key once |
| Day17Cycle.LowestY | src/days/day17.rs:88-93 | the lowest y of the copy, 0 when it is empty |
| Day17Cycle.ShiftDown | src/days/day17.rs:94-96 | each position is moved down by the lowest y, and the copy stays without repeats |
| Day17Cycle.SnapshotUnique | src/days/day17.rs:85-99 | one normalised set of cells has one snapshot |
| Day17Cycle.SortedUnique | src/days/day17.rs:97 | two sorted lists without repeats holding the same positions are equal |
| Day17Cycle.LowerMinY | src/days/day17.rs:94-96 | moving every cell down by `m` moves the lowest down by `m` |
| Day17Cycle.NormalizeShift | src/days/day17.rs:85-99 | normalising forgets a vertical shift of the tower |
| Day17Cycle.ShiftedSnapshots | src/days/day17.rs:163-170 | two towers that differ by a vertical shift have equal snapshots, so the memo recognises them |
| Day17Cycle.SameSnapshot | src/days/day17.rs:163-170 | one snapshot describes one normalised tower |
| Day17Cycle.PruneKeepsTop | src/days/day17.rs:211-218 | pruning only removes cells, keeps the top of the tower and leaves a grid with cells non-empty |
| Day17Cycle.CountRows | src/days/day17.rs:212-215 | each row's count is the number of its cells, and an empty row has no entry |
| Day17Cycle.Prune | src/days/day17.rs:211-218 | the loops drop everything below every full row |
| Day17Cycle.AboveStep | src/days/day17.rs:217 | one more `retain` raises the floor by one more row |
| Day17Cycle.RetainAbove | src/days/day17.rs:216-218 | the `retain`s, in any order, keep the cells at or above every full row |
| Day17Cycle.Phase | src/days/day17.rs:161 | the shape index is below 5 |
| Day17Cycle.LastFirstNext | src/days/day17.rs:161-164 | the phase advances by one modulo 5, and the last first rock stays until the next |
| Day17Cycle.Tower2 | src/days/day17.rs:192-218 | the state after `k` pruned rocks keeps the jet index within the pattern |
| Day17Cycle.Tower2Step | src/days/day17.rs:192-218 | one more rock falls and then the grid is pruned |
| Day17Cycle.GridNonEmpty | src/days/day17.rs:219-222 | after the first rock the grid always holds cells, so the `unwrap`s of the highest cell at lines 172 and 221 never panic |
| Day17Cycle.PrunedNonEmpty | src/days/day17.rs:192-218 | a fall that leaves cells leaves them after pruning |
| Day17Cycle.Remainder | src/days/day17.rs:173 | `TARGET % diff` is below `diff` |
| Day17Cycle.DivMod | src/days/day17.rs:173 | the leftover plus the whole cycles make up `TARGET` |
| Day17Cycle.Periodic | src/days/day17.rs:171-175 | values that grow by `delta` every `d` steps grow by `q` times `delta` every `q d` steps |
| Day17Cycle.Extrapolate | src/days/day17.rs:171-175 | values periodic from `s` on reach `h(TARGET)` from `h(TARGET % (n - s))` by whole cycles |
| Day17Cycle.ExtrapolatedHeight | src/days/day17.rs:171-175 | when the heights are periodic from rock `s` with period `n - s` and the leftover lies in the periodic part, the extrapolation is the height after `TARGET` rocks |
| Day17Cycle.RepeatShared | src/days/day17.rs:170 | two earlier fifth rocks repeated at the same rock repeat each other |
| Day17Cycle.FirstRepeatUnique | src/days/day17.rs:170-189 | there is one first repeat: its later rock is the first fifth rock seen before, and its earlier rock the only one with that memo state |
| Day17Cycle.AnswersEvery | src/days/day17.rs:170-176 | an answer from the first repeat is the answer from every first repeat |
| Day17Cycle.FirstRepeatExists | src/days/day17.rs:160-190 | unless no fifth rock before rock `k` repeats, a first repeat comes before rock `k` |
| Day17Cycle.Part2 | src/days/day17.rs:142-225 | with no fifth rock before `TARGET` repeating an earlier memo state, the result is the height after `TARGET` rocks; otherwise it is `None` exactly when `TARGET` is a multiple of the cycle of the first repeat (`max_ys[&0]` panics) and else that repeat's extrapolation |
| Day17Cycle.Memo | src/days/day17.rs:161-190 | a found answer comes from the first repeat, as `Answers` says; otherwise no fifth rock so far repeats, every fifth rock's state is stored at that rock, and the snapshot stays accurate |
| Day17Cycle.LineNext | src/days/day17.rs:162-163 | the snapshot taken before a first rock, or kept from before, stays the last one |
| Day17Cycle.Visit | src/days/day17.rs:178-189 | the memo state is stored with the rock count and the height, and the memo stays accurate |
| Day17Cycle.VisitsAdd | src/days/day17.rs:178-189 | a new entry keeps every recorded entry accurate |
| Day17Cycle.VisitsCompleteLater | src/days/day17.rs:164 | rocks that are not fifth rocks store nothing |
| Day17Cycle.VisitsCompleteAdd | src/days/day17.rs:178-189 | storing a new memo state keeps every fifth rock's state stored at that rock |
| Day17Cycle.SeenIfRepeat | src/days/day17.rs:165-170 | a memo state repeating that of an earlier fifth rock is found in `visited` |
| Day17Cycle.Unseen | src/days/day17.rs:170-189 | a memo state missing from `visited` means its fifth rock repeats no earlier one |
| Day17Cycle.RecordHeight | src/days/day17.rs:219-222 | the height after `k` rocks is recorded |
| Day17Cycle.Advance | src/days/day17.rs:192-218 | one rock falls and the grid is pruned, as `Tower2` says |
| Day17Cycle.Repeated | src/days/day17.rs:170-176 | the memo state repeats the one stored at `rested_src`, and the answer is `None` exactly when `TARGET % diff == 0` (`max_ys[&0]` panics) and otherwise the extrapolation |
| Day17Cycle.RepeatFound | src/days/day17.rs:165-170 | a memo state met again at a fifth rock is a repeat of the rock where it was stored |
| Day17Cycle.ExtrapolatedIs | src/days/day17.rs:171-175 | the computed value is the extrapolation |
| Day18.Neighbours | src/days/day18.rs:53-58 | the six face-sharing cells, in the order the source looks at them |
| Day18.NeighboursAdjacent | src/days/day18.rs:53-58 | the neighbours are exactly the cells sharing a face, with no two the same |
| Day18.CountIf | src/days/day18.rs:53-58 | the count of elements satisfying the condition is at most their number |
| Day18.DistinctTail | src/days/day18.rs:53-58 | the tail of a sequence without repeats has none and lacks the head |
| Day18.SatisfyingCons | src/days/day18.rs:53-58 | the satisfying elements are the head if it qualifies and those of the tail |
| Day18.CountIfCard | src/days/day18.rs:53-58 | on distinct elements the count is the size of the set of satisfying elements |
| Day18.CountIfMonotone | src/days/day18.rs:127-132 | counting a weaker condition counts at least as many |
| Day18.ExposedFaces | src/days/day18.rs:53-58 | a cube has as many exposed faces as face-sharing cells without a cube, between 0 and 6 |
| Day18.SumExposed | src/days/day18.rs:50-60 | the sum of exposed faces is at most six per cube |
| Day18.Part1 | src/days/day18.rs:44-61 | the surface area, at most six faces per listed cube |
| Day18.Span | src/days/day18.rs:91-96 | the integers from `lo` to `hi`, both included |
| Day18.Box | src/days/day18.rs:91-96 | the cells of the box are exactly those inside it |
| Day18.Push | src/days/day18.rs:86-100 | a cell is queued iff it lies inside the box |
| Day18.PushNeighbours | src/days/day18.rs:74-79 | the six calls queue exactly the neighbours inside the box |
| Day18.RemainingShrinks | src/days/day18.rs:81 | visiting a new cell of the box shrinks what is left of it, so the flood ends |
| Day18.FillStep | src/days/day18.rs:70-82 | one pass marks the popped cell visited and, unless it is a cube or already visited, adds it to the air and queues its neighbours |
| Day18.QueuedGrows | src/days/day18.rs:74-79 | a cell queued as the neighbour of an air cell stays so as the air grows |
| Day18.ReachedStep | src/days/day18.rs:74-79 | a free neighbour in the box of a cell reached from the start is reached too |
| Day18.TrackExpand | src/days/day18.rs:70-82 | expanding the popped free cell keeps every queued cell a neighbour of the air, and every air cell reached from the start |
| Day18.TryFill | src/days/day18.rs:63-84 | the air is exactly the set of cells of the box that a walk through free cells leads to from the start, and every free air cell is expanded exactly once |
| Day18.FloodIsExterior | src/days/day18.rs:63-84 | a closed flood whose cells are all reached from the start is exactly the reachable set |
| Day18.Filled | src/days/day18.rs:70-83 | once the queue is empty the air is closed under free neighbours |
| Day18.MinCoord | src/days/day18.rs:111-116 | the least coordinate on any axis, reached by some cube |
| Day18.MaxCoord | src/days/day18.rs:108-115 | the greatest coordinate on any axis, reached by some cube |
| Day18.Bounds | src/days/day18.rs:104-121 | the box padded by one on every side holds every neighbour of every cube |
| Day18.CornerIsFree | src/days/day18.rs:122 | the corner the flood starts from lies in the box and holds no cube |
| Day18.FloodReaches | src/days/day18.rs:63-84 | the flood reaches every cell that a walk through free cells of the box leads to |
| Day18.OutsideAtMostExposed | src/days/day18.rs:124-134 | an outside face is an exposed face, so part 2 never exceeds part 1 |
| Day18.Part2 | src/days/day18.rs:102-135 | `None` iff the input is empty (where `max` panics); otherwise the faces touching the cells reachable from the corner through free cells of the box, at most part 1 |
| Day19.Index | src/days/day19.rs:19-25 | each resource has its place in enum order |
| Day19.EnumMap.Set | src/days/day19.rs:39-41 | replacing one entry changes that entry and no other |
| Day19.Extensional | src/days/day19.rs:10-14 | two maps with the same entries are the same map, so equal inventories are one explored state |
| Day19.CanAfford | src/days/day19.rs:105-107 | true iff the stock covers every cost of the recipe |
| Day19.AffordableBy | src/days/day19.rs:28-34 | a robot is marked iff its recipe is affordable |
| Day19.Pay | src/days/day19.rs:37-40 | each stock drops by what the recipe asks of it |
| Day19.Purchase | src/days/day19.rs:36-42 | the loop pays the recipe and adds the robot |
| Day19.CostOfDistinct | src/days/day19.rs:119-136 | with distinct resources in a recipe, it asks of a resource the amount of its one cost for it, or nothing |
| Day19.PurchaseKeepsStock | src/days/day19.rs:36-42 | an affordable purchase leaves every stock non-negative and never touches the geodes |
| Day19.Add | src/days/day19.rs:99-103 | adding robot counts adds entrywise |
| Day19.Generate | src/days/day19.rs:99-103 | the loop adds each robot count to its resource |
| Day19.ChildrenOf | src/days/day19.rs:86-89 | one child per robot bought, in order |
| Day19.BuysUpToMembers | src/days/day19.rs:69-90 | a robot is bought iff the loop's rule says so, and those bought come in enum order |
| Day19.GeodeFirst | src/days/day19.rs:74-85 | if a geode robot is affordable, buying it is the only branch |
| Day19.SkipAtMax | src/days/day19.rs:77-81 | a robot other than a geode robot is not bought once its count reaches the largest cost of its resource |
| Day19.WaitRule | src/days/day19.rs:68-94 | waiting is explored iff no affordable robot is a geode robot or at its maximum |
| Day19.BuyChildProduction | src/days/day19.rs:66-88 | a purchase is paid from the stock, and production uses the robots from before the purchase |
| Day19.PotentialMonotone | src/days/day19.rs:56-59 | the bound grows with the geodes and the geode robots |
| Day19.PotentialClosed | src/days/day19.rs:56-59 | the recursive bound equals the source's closed form |
| Day19.BestBounded | src/days/day19.rs:56-59 | no leaf below a state beats the bound of one new geode robot a minute |
| Day19.ChildBestBounded | src/days/day19.rs:86-93 | no leaf below a child beats the parent's bound |
| Day19.ChildPotential | src/days/day19.rs:86-93 | a child's bound with a minute less is within its parent's |
| Day19.ChildBounds | src/days/day19.rs:86-93 | a child has the geodes the robots just made, and at most one more geode robot |
| Day19.PruneSound | src/days/day19.rs:56-61 | the pruning test only cuts off trees that cannot beat `max` |
| Day19.Branch | src/days/day19.rs:86-89 | one purchase followed by the recursive search raises `max` to the child's best leaf |
| Day19.Wait | src/days/day19.rs:91-94 | waiting followed by the recursive search raises `max` to the waiting child's best leaf |
| Day19.Concluded | src/days/day19.rs:62-95 | once `max` holds the best leaf below the state, the explored set is complete again |
| Day19.NotBought | src/days/day19.rs:77-81 | a robot not bought leaves the children found so far as they are |
| Day19.Bought | src/days/day19.rs:86-89 | a robot bought adds its child's best leaf to `max` |
| Day19.Scanned | src/days/day19.rs:69-94 | once every child has been searched, the whole tree below the state is known |
| Day19.Scan | src/days/day19.rs:69-90 | one pass of the loop keeps the loop invariants, or ends the search with the tree known |
| Day19.Finish | src/days/day19.rs:91-94 | after the loop the tree below the state is known |
| Day19.SearchRecurse | src/days/day19.rs:44-95 | `max` ends as the larger of its old value and the best leaf below the state, despite the pruning and the explored set |
| Day19.Search | src/days/day19.rs:154-158 | one search from one ore robot and `max = 0` gives the most geodes |
| Day19.Part1 | src/days/day19.rs:148-162 | the sum over blueprints of the id times the most geodes in 24 minutes |
| Day19.Part2 | src/days/day19.rs:164-179 | the product of the most geodes in 32 minutes over the first three blueprints |
| Day19.MaxCosts | src/days/day19.rs:139-142 | for each resource the largest amount any recipe asks of it, or 0 |
| Day19.ParseBlueprint | src/days/day19.rs:114-144 | `None` iff the line has fewer than six numbers (where indexing panics); otherwise the four recipes in the input's order and their maxima |
| Day20.Tag | src/days/day20.rs:8-12 | each number is paired with its index |
| Day20.TagUnique | src/days/day20.rs:8-12 | the tags of a fresh buffer are unique |
| Day20.UniquePermutation | src/days/day20.rs:25 | a permutation of a buffer with unique tags has unique tags |
| Day20.Position | src/days/day20.rs:20 | the first index holding `x`, or `None` iff it is absent |
| Day20.PositionUnique | src/days/day20.rs:20 | with unique tags the lookup finds the one index holding `x` |
| Day20.Next | src/days/day20.rs:24 | one step in the direction, round the end, stays inside the buffer |
| Day20.NextIsRemEuclid | src/days/day20.rs:24 | the step is `(idx + dir).rem_euclid(len)` |
| Day20.Swap | src/days/day20.rs:25 | the two entries are exchanged and the others kept |
| Day20.SwapPermutation | src/days/day20.rs:25 | a swap only permutes the buffer |
| Day20.StepsPermutation | src/days/day20.rs:23-27 | the swaps only permute the buffer |
| Day20.Advance | src/days/day20.rs:23-27 | where `k` single steps end, inside the buffer |
| Day20.AdvanceWraps | src/days/day20.rs:23-27 | `k` single steps round the end are one jump of `dir * k` places reduced modulo the length |
| Day20.StepsLand | src/days/day20.rs:23-27 | after `k` steps the moved value is where `Advance` says |
| Day20.MixOne | src/days/day20.rs:16-28 | mixing one number keeps the buffer's length |
| Day20.Mixed | src/days/day20.rs:16-28 | mixing every number in turn keeps the length |
| Day20.MixedPermutation | src/days/day20.rs:16-28 | mixing permutes the buffer |
| Day20.MixedUnique | src/days/day20.rs:16-28 | mixing keeps the tags unique, so every later lookup finds exactly its number |
| Day20.MixOneLands | src/days/day20.rs:20-27 | a nonzero number ends `abs(value) % (len - 1)` places further in the direction of its sign, round the end |
| Day20.MixOneZero | src/days/day20.rs:17-19 | a zero is never moved |
| Day20.MoveSteps | src/days/day20.rs:22-27 | the inner loop of swaps computes `Steps` |
| Day20.MixRound | src/days/day20.rs:16-28 | the outer loop computes `Mixed` and only permutes the buffer |
| Day20.NewBuffer | src/days/day20.rs:8-12 | the array holds the tagged numbers |
| Day20.ZeroAt | src/days/day20.rs:29 | the first index of a zero value, or `None` iff there is none |
| Day20.GroveSum | src/days/day20.rs:29-33 | the values 1000, 2000 and 3000 places after the first zero, round the end; `None` iff there is no zero |
| Day20.Part1 | src/days/day20.rs:6-34 | the grove sum after one mix; `None` where the source panics |
| Day20.Scale | src/days/day20.rs:41 | every number multiplied by 811589153 |
| Day20.MixedRounds | src/days/day20.rs:46-60 | rounds of mixing keep the length |
| Day20.MixedRoundsPermutation | src/days/day20.rs:46-60 | rounds of mixing permute the buffer |
| Day20.Part2 | src/days/day20.rs:36-66 | the grove sum after scaling and ten rounds in the original order; `None` where the source panics |
| Day21.Pack | src/days/day21.rs:53-60 | a key exists iff the name has four bytes, packed big-endian |
| Day21.Unpack | src/days/day21.rs:63-68 | the four bytes back, each truncated to eight bits |
| Day21.ByteOfWord | src/days/day21.rs:56-65 | each byte shifted into a packed word comes back out of it |
| Day21.UnpackPack | src/days/day21.rs:53-68 | unpacking a packed name gives the name back |
| Day21.PackInjective | src/days/day21.rs:53-60 | distinct names give distinct keys |
| Day21.NamedKeys | src/days/day21.rs:176-199 | `root` and `humn` pack to the model's two named keys |
| Day21.EntryMap | src/days/day21.rs:177-181 | every entry's key is in the map with an entry of that key, a later entry replacing an earlier one |
| Day21.Apply | src/days/day21.rs:35-39 | the arithmetic faults iff it divides by zero |
| Day21.Combine | src/days/day21.rs:74-87 | a fault in either operand faults; otherwise the value is known iff both operands are |
| Day21.KnownWithHuman | src/days/day21.rs:72-88 | a value that does not reach the input keeps it whatever the input is |
| Day21.StoredIdempotent | src/days/day21.rs:30-33 | running an entry a second time changes nothing |
| Day21.StoredKeys | src/days/day21.rs:30-43 | running keeps every stored value and stores the entry's key iff it is not an `Input` |
| Day21.StoredCached | src/days/day21.rs:30-43 | running an entry stores the value evaluation gives it |
| Day21.Memory.constructor | src/days/day21.rs:24-27 | the memory starts empty |
| Day21.Memory.Run | src/days/day21.rs:30-43 | `run` stores the entry's value unless it is stored already or is an `Input` |
| Day21.RunDependencies | src/days/day21.rs:72-88 | the answer is true iff the instruction's value is known, and then both operands are stored |
| Day21.RunStored | src/days/day21.rs:78-81 | running a known entry with its operands stored stores its value |
| Day21.EntryRun | src/days/day21.rs:92-97 | the entry's value iff no `Input` is reached |
| Day21.UndoLeftSound | src/days/day21.rs:111-127 | undoing with the left operand known gives a value that the operation takes back to the target |
| Day21.UndoRightSound | src/days/day21.rs:111-128 | undoing with the right operand known gives a value that the operation takes back to the target |
| Day21.QuotOfMultiple | src/days/day21.rs:122-128 | truncating division undoes a multiplication |
| Day21.InvertSound | src/days/day21.rs:102-132 | the input value the inversion finds makes the entry evaluate to the target, when no division truncates |
| Day21.RunUntilHuman | src/days/day21.rs:102-132 | the recursion returns what `Invert` defines |
| Day21.Part1 | src/days/day21.rs:173-187 | the root's value iff it is known; `None` where the source panics |
| Day21.Humanised | src/days/day21.rs:198-204 | `humn` becomes the input |
| Day21.HumanisedWellFormed | src/days/day21.rs:198-204 | the entries stay well ranked with `humn` as the input |
| Day21.SolutionSound | src/days/day21.rs:205-220 | a solution needs exactly one operand of the root to reach the input, and with exact divisions it makes both operands equal |
| Day21.Part2 | src/days/day21.rs:189-220 | the method computes `Solution` |
| Day22.Value | src/days/day22.rs:29-34 | the discriminant of a facing is below 4 |
| Day22.TurnValue | src/days/day22.rs:236-247 | a right turn adds one to the discriminant modulo 4, a left turn takes one away |
| Day22.TurnInverse | src/days/day22.rs:236-247 | a turn one way undoes a turn the other way |
| Day22.TurnFour | src/days/day22.rs:236-247 | four turns the same way come back to the start |
| Day22.PosMod | src/days/day22.rs:227-234 | the unit step of each facing, with y growing downwards |
| Day22.PosModOpposite | src/days/day22.rs:227-247 | opposite facings step in opposite directions |
| Day22.NewRectInside | src/days/day22.rs:204-217 | the rectangle holds the points from the top corner, inclusive, to the bottom corner, exclusive |
| Day22.MinStart | src/days/day22.rs:221 | the least start of the ranges, reached by one of them |
| Day22.MaxEnd | src/days/day22.rs:222 | the greatest end of the ranges, reached by one of them |
| Day22.Wrap | src/days/day22.rs:220-224 | `None` iff `unwrap` or `rem_euclid` would panic: no ranges, or an empty span |
| Day22.WrapSound | src/days/day22.rs:223 | a wrapped coordinate lies in the span and differs from the original by a multiple of its length |
| Day22.WrapInside | src/days/day22.rs:220-224 | a coordinate already in the one range is left where it is |
| Day22.FirstFrom | src/days/day22.rs:84-102 | the first band that decides the step, as the loop with `break` finds it |
| Day22.SkipWhileOutsideSound | src/days/day22.rs:113-123 | what is skipped misses the column; what is left starts with a band containing it |
| Day22.TakeWhileInsideSound | src/days/day22.rs:114-124 | what is taken is a prefix of bands containing the column |
| Day22.ColumnRowsSound | src/days/day22.rs:106-127 | the rows of a vertical wrap come from bands whose columns contain `x`, and there are some iff some band's do |
| Day22.FlatStep | src/days/day22.rs:79-133 | a flat step keeps its facing and fails only against a wall |
| Day22.FlatStepOnBoard | src/days/day22.rs:90-94 | a step onto a tile of the band the walker is on does not wrap |
| Day22.FaceAt | src/days/day22.rs:170-175 | the first face containing the point, or `None` when none does |
| Day22.FaceNamed | src/days/day22.rs:176-190 | the first face with that name, or `None` |
| Day22.WrapCube | src/days/day22.rs:169-201 | a result comes from the face containing the point and the edge table's entry; `None` where the source panics |
| Day22.EntryOnEdge | src/days/day22.rs:180-199 | between square faces of one size the walker enters the new face on the edge its new facing points away from |
| Day22.CubeStep | src/days/day22.rs:135-167 | a cube step fails only against a wall |
| Day22.NextPos | src/days/day22.rs:79-133 | the method computes `FlatStep` |
| Day22.NextCubePos | src/days/day22.rs:135-167 | the method computes `CubeStep` |
| Day22.MoveOneStep | src/days/day22.rs:318-323 | a step that moves leaves one step fewer to take |
| Day22.MoveStopsAtWall | src/days/day22.rs:321 | against a wall no number of steps moves the walker |
| Day22.MoveSplit | src/days/day22.rs:318-323 | a move of `a + b` steps is a move of `a` followed by one of `b` |
| Day22.WalkSplit | src/days/day22.rs:314-326 | the walk over the directions is the walk of a prefix followed by the walk of the rest |
| Day22.Advance | src/days/day22.rs:319-340 | one step as the mode computes it |
| Day22.MoveStep | src/days/day22.rs:318-323 | one step of a move and what it leaves of the move |
| Day22.MoveSteps | src/days/day22.rs:318-323 | the inner loop, left at the first wall, computes `MoveN` |
| Day22.Travel | src/days/day22.rs:312-326 | the outer loop computes the walk from the start facing right |
| Day22.PasswordDecodes | src/days/day22.rs:328 | on a board narrower than 249 columns the password gives back row, column and facing |
| Day22.PasswordInjective | src/days/day22.rs:328 | on such a board two states with one password are equal |
| Day22.Part1 | src/days/day22.rs:310-329 | the password of the flat walk, defined iff the walk is |
| Day22.Part2 | src/days/day22.rs:331-353 | the password of the cube walk, defined iff the walk is |
| Day22.EdgesUseSixFaces | src/days/day22.rs:43-58 | every name the edge table uses is one of the six faces |
| Day22.SixFacesNamed | src/days/day22.rs:60-76 | a table listing the six faces in the order of `RANGES` names each of them |
| Day22.SixFacesEdgesNamed | src/days/day22.rs:43-76 | the edge table only names faces of such a table |
| Day22.InputTablesSound | src/days/day22.rs:43-67 | `RANGES` and `EDGES` are sound: square faces of side 50, apart, every edge named |
| Day22.ExampleTablesSound | src/days/day22.rs:43-76 | `RANGES_EXAMPLE` and `EDGES` are sound, with faces of side 4 |
| Day22.WrapCubeLands | src/days/day22.rs:169-201 | with sound tables, crossing an edge of the table lands inside the named face on its entry edge |
| Day23.PosMod | src/days/day23.rs:71-78 | each direction is a unit step on one axis, y growing southwards |
| Day23.InspectedSide | src/days/day23.rs:41-52 | the three cells checked for a side are that side's row or column of neighbours, the target in the middle |
| Day23.FirstClear | src/days/day23.rs:30-33 | the first clear direction of the order, or `None` when every one is obstructed |
| Day23.Proposal | src/days/day23.rs:18-39 | a proposed cell is never one where an elf stands |
| Day23.ProposalNone | src/days/day23.rs:23-34 | with all four directions in the order, an elf proposes nothing iff it has no neighbour or every side is blocked |
| Day23.ProposalFirstClear | src/days/day23.rs:30-37 | a proposal is the step towards the first clear direction |
| Day23.RotateLeft | src/days/day23.rs:65 | `rotate_left(1)` keeps the length |
| Day23.RotateLeftAt | src/days/day23.rs:65 | the first direction moves to the end and the others keep their order |
| Day23.RotatePermutes | src/days/day23.rs:65 | rotating keeps the same directions |
| Day23.RotateComplete | src/days/day23.rs:65 | rotating keeps every direction in the order |
| Day23.RotateFour | src/days/day23.rs:65-99 | four rotations of the four directions give the order back |
| Day23.MoversInjective | src/days/day23.rs:60 | no two elves that move aim at the same cell |
| Day23.ImageSize | src/days/day23.rs:60-64 | there are as many targets as movers |
| Day23.CountPreserved | src/days/day23.rs:54-67 | a turn neither loses nor gains an elf |
| Day23.ChangedIffMoved | src/days/day23.rs:59-66 | a turn changes the elves iff some elf moves |
| Day23.NextElvesFrom | src/days/day23.rs:60-64 | every elf after a turn stayed or stepped to a proposal no other elf made |
| Day23.MovingMovers | src/days/day23.rs:59-66 | the turn's answer is true iff some elf moves |
| Day23.TurnKeepsCount | src/days/day23.rs:54-67 | a turn keeps the number of elves |
| Day23.RoundsCount | src/days/day23.rs:106-108 | any number of turns keeps the number of elves |
| Day23.RoundsStep | src/days/day23.rs:106-108 | one more round is one more turn |
| Day23.Record | src/days/day23.rs:37 | the elf is appended to the list of its proposal and every other entry is unchanged |
| Day23.RecordCollects | src/days/day23.rs:56-58 | recording one more elf keeps the map listing each proposer once under its proposal |
| Day23.RecordedAt | src/days/day23.rs:37 | one key of the map after recording an elf lists its proposers |
| Day23.RecordedKey | src/days/day23.rs:37 | recording adds the elf to the key's list iff it proposed that key |
| Day23.ApplyOne | src/days/day23.rs:60-64 | a key with a single proposer moves that elf |
| Day23.NoProposerOnElf | src/days/day23.rs:41-52 | no elf proposes a cell where an elf stands |
| Day23.SkipOne | src/days/day23.rs:60 | a key without exactly one proposer is skipped |
| Day23.ApplyStep | src/days/day23.rs:60-64 | one iteration of the second loop keeps its invariant |
| Day23.AllApplied | src/days/day23.rs:60-64 | after the last key the elves are those of `NextElves`, and `moved` is true iff some elf moved |
| Day23.AllKeys | src/days/day23.rs:60 | once every key is handled the sources are the movers and the singles the targets |
| Day23.CollectMoves | src/days/day23.rs:55-58 | the first loop records every elf's proposal |
| Day23.ApplyKey | src/days/day23.rs:60-64 | one key of the second loop keeps its invariant and the keys left shrink |
| Day23.ApplyMoves | src/days/day23.rs:59-64 | the second loop computes `NextElves`, and `moved` is true iff there were movers |
| Day23.Grove.constructor | src/days/day23.rs:3-7 | the grid holds the elves and the order |
| Day23.Grove.RunTurn | src/days/day23.rs:54-67 | `run_turn` computes the next elves and rotates the order; the answer is true iff some elf moved |
| Day23.BoxedAdd | src/days/day23.rs:109-112 | adding a position widens the box as the comparisons do |
| Day23.BoundingBox | src/days/day23.rs:109-112 | the least and greatest coordinates of the elves |
| Day23.RowBound | src/days/day23.rs:113 | a row `x0..=x1` holds at most `x1 + 1 - x0` positions |
| Day23.BoxBound | src/days/day23.rs:113 | at most the area of the box fits in it, so the free-tile count is not negative |
| Day23.EmptyGround | src/days/day23.rs:109-113 | the box's area minus the elves; `None` iff there are no elves (where `unwrap` panics) |
| Day23.TurnOnce | src/days/day23.rs:107 | one turn steps from round `k` to round `k + 1` |
| Day23.RunTurns | src/days/day23.rs:106-108 | `n` turns from the round the grid holds |
| Day23.Part1 | src/days/day23.rs:103-114 | the free tiles of the bounding box after ten turns; `None` iff there are no elves |
| Day23.FirstFailureIsFirst | src/days/day23.rs:119-123 | a found turn is the earliest in which no elf moves |
| Day23.TurnOrStop | src/days/day23.rs:120-122 | one turn of the loop returns its number iff no elf moves |
| Day23.TurnsUntilStill | src/days/day23.rs:119-124 | the loop stops at the first turn in which no elf moves, within the bound |
| Day23.Part2 | src/days/day23.rs:116-125 | the number of the first turn in which no elf moves, when it is within the bound |
| Day23.FirstFailureFails | src/days/day23.rs:119-123 | searching from turn 1 finds the first turn in which no elf moves |
| Day24.Wrap | src/days/day24.rs:46-49 | `wrap` brings any coordinate into `1..=v` |
| Day24.WrapQuot | src/days/day24.rs:47-49 | `wrap` moves its argument by a multiple of `v` |
| Day24.WrapShift | src/days/day24.rs:47-49 | coordinates `v` apart wrap to the same cell |
| Day24.WrapSelf | src/days/day24.rs:47-49 | a coordinate in `1..=v` is left alone |
| Day24.WrapBack | src/days/day24.rs:40-43 | tracing `m` back undoes going `m` forward round the ring |
| Day24.WrapInverse | src/days/day24.rs:40-43 | going `m` forward and `m` back round the ring are inverse moves |
| Day24.TracedOnMap | src/days/day24.rs:40-43 | the cells `has_blizzard` inspects are on the map |
| Day24.TracedIffAfter | src/days/day24.rs:40-43 | the traced cell is exactly where a blizzard heading `d` must start to be on `p` after `m` minutes |
| Day24.TracedOccupied | src/days/day24.rs:40-56 | a blizzard on the traced cell, heading its direction, is on `p` after `m` minutes |
| Day24.OccupiedTraced | src/days/day24.rs:40-56 | a blizzard that is on `p` after `m` minutes sits on the cell traced for its direction |
| Day24.HasBlizzardOccupied | src/days/day24.rs:35-44 | `has_blizzard(p, time)` holds iff some blizzard of the map is on `p` at minute `time + 1` |
| Day24.Period | src/days/day24.rs:116-117 | the period `width height` is positive |
| Day24.WrapAhead | src/days/day24.rs:47-49 | coordinates a multiple of `v` apart, either way, wrap alike |
| Day24.PeriodMultiple | src/days/day24.rs:116-117 | `k` periods are multiples of both the width and the height |
| Day24.TracedShift | src/days/day24.rs:40-43 | the traced cells repeat every `width height` minutes |
| Day24.HasBlizzardShift | src/days/day24.rs:35-44 | `has_blizzard` is periodic in the minute, with period `width height` |
| Day24.HasBlizzardPhase | src/days/day24.rs:116-117 | `has_blizzard` depends only on the minute modulo the period |
| Day24.AdmitMeaning | src/days/day24.rs:74-89 | one direction's closure yields exactly its neighbour when that is the end, or inside and free |
| Day24.NeighborsMeaning | src/days/day24.rs:66-91 | the neighbours are exactly the admissible orthogonal neighbours |
| Day24.OptionsMeaning | src/days/day24.rs:118-127 | a state's successors are the admissible neighbours, and the cell itself when it is free |
| Day24.WaitIffFree | src/days/day24.rs:124-127 | waiting is queued iff the cell is free at the next minute |
| Day24.OptionsAgree | src/days/day24.rs:118-127 | the successors depend on which cells are free alone |
| Day24.MovesMeaning | src/days/day24.rs:66-127 | a move steps onto the goal or onto an inner cell no blizzard is on at the next minute, or waits when none is on the cell |
| Day24.MovesWithin | src/days/day24.rs:77-86 | no move leaves the map |
| Day24.MovesPeriodic | src/days/day24.rs:116-117 | the moves repeat every `width height` minutes, which justifies the keys of `explored` |
| Day24.Bfs | src/days/day24.rs:105-130 | the earliest arrival minute at the goal, never before `step`; `None` (the panic) iff no trip reaches it |
| Day24.Part1 | src/days/day24.rs:157-161 | the earliest arrival at the exit leaving the entrance at minute 0; `None` iff unreachable |
| Day24.Part2 | src/days/day24.rs:163-170 | three fastest trips, each leaving when the one before arrived, with non-decreasing arrivals; `None` iff one is impossible |
| TimedSearch.ModUnique | src/days/day24.rs:117 | the remainder is the unique `r` with `x == q v + r` and `0 <= r < v` |
| TimedSearch.PhaseStep | src/days/day24.rs:117 | the phase of the next minute follows from the phase of this one |
| TimedSearch.Stamped | src/days/day24.rs:119-121 | stamping cells with a phase keeps their number |
| TimedSearch.StampedMember | src/days/day24.rs:119-121 | a key is stamped iff its cell is listed and its phase is the stamp |
| TimedSearch.KeysClosed | src/days/day24.rs:117-127 | expanding keys never leaves the keys of the map |
| TimedSearch.StepIsEdge | src/days/day24.rs:117-121 | a move at minute `t` is an edge between the keys of minutes `t` and `t + 1` |
| TimedSearch.KeyWalk | src/days/day24.rs:117 | a trip's keys are as many as its cells |
| TimedSearch.TripIsWalk | src/days/day24.rs:112-127 | trips through real minutes are exactly walks of the search through their keys |
| TimedSearch.WalkPhases | src/days/day24.rs:117-126 | along a walk from the key of minute `step`, the `i`-th key has the phase of minute `step + i` |
| TimedSearch.Cells | src/days/day24.rs:112 | a walk's cells are as many as its keys |
| TimedSearch.GoalTripWithin | src/days/day24.rs:112-115 | a goal trip of `m` minutes puts a goal key within `m` steps of the start |
| TimedSearch.WithinGoalTrip | src/days/day24.rs:112-115 | a goal key within `k` steps is the end of a goal trip of at most `k` minutes |
| TimedSearch.Bfs | src/days/day24.rs:105-130 | the search over phased keys returns the earliest minute of a goal trip, or `None` iff none exists |
| Day25.Pow5 | src/days/day25.rs:20 | the place values `pow` of the fold are positive |
| Day25.DigitValue | src/days/day25.rs:12-19 | a decoded digit lies in `-2..=2`; other characters panic |
| Day25.DigitChar | src/days/day25.rs:50-57 | a digit has a character iff it lies in `-2..=2` |
| Day25.DigitRoundTrip | src/days/day25.rs:12-57 | the decoder's and the encoder's tables are inverse to each other |
| Day25.MaxBalanced | src/days/day25.rs:38-41 | the largest value of `len` SNAFU digits, `(5^len - 1) / 2` |
| Day25.ValueConcat | src/days/day25.rs:20 | the digits before a suffix are worth `5^|suffix|` times their value |
| Day25.BalancedBounds | src/days/day25.rs:38-41 | `len` SNAFU digits lie within `±MaxBalanced(len)` |
| Day25.LeadingDigit | src/days/day25.rs:12-20 | SNAFU digits with a non-zero first digit are not worth zero |
| Day25.DigitsOf | src/days/day25.rs:10-19 | the digits of a numeral are its characters' values, in order |
| Day25.DecodeFoldValue | src/days/day25.rs:10-21 | the fold over the reversed characters adds `pow` times the digits' value, and fails on a non-digit |
| Day25.DecodeMeaning | src/days/day25.rs:8-23 | a string decodes iff every character is a digit, to the value of its digits |
| Day25.HighestPow | src/days/day25.rs:28 | the floor of the base-5 logarithm: `5^k <= n < 5^(k+1)` for `n >= 1`, and 0 for `n <= 4` |
| Day25.Extract | src/days/day25.rs:29-36 | for `n >= 0` the loop yields the base-5 digits of `n` with a non-zero first digit when `n >= 1`; a negative `n` gives the single digit `n` |
| Day25.ExtractingStep | src/days/day25.rs:32-36 | one pass of the loop keeps its invariant |
| Day25.ExtractingDone | src/days/day25.rs:32 | when the power reaches 0 the digits are complete |
| Day25.PowDown | src/days/day25.rs:35 | dividing a power of 5 by 5 gives the next lower power, and 1 gives 0 |
| Day25.ExtractStep | src/days/day25.rs:33-34 | from `0 <= m < 5 pow` the quotient is a base-5 digit and the value is kept |
| Day25.CarryAsWritten | src/days/day25.rs:37-42 | the carry pass keeps the value and yields SNAFU digits; it fails (the underflowing index) iff the value exceeds `MaxBalanced` of its length |
| Day25.CarryKeepsValue | src/days/day25.rs:38-41 | moving 5 from a digit to one on the digit before keeps the value |
| Day25.CarryOverflow | src/days/day25.rs:37-42 | a first digit still above 2 means the value is beyond SNAFU digits of that length |
| Day25.Render | src/days/day25.rs:47-58 | digits render iff every one is in `-2..=2`, each to its character |
| Day25.RenderDecodes | src/days/day25.rs:8-58 | rendered digits decode to their value |
| Day25.EncodeAsWritten | src/days/day25.rs:27-61 | `fmt` as written succeeds iff `-2 <= n <= MaxBalanced(HighestPow(n) + 1)`, and its output decodes to `n` |
| Day25.ThreeHasNoEncoding | src/days/day25.rs:37-42 | 3 decodes from `1=`, yet `fmt` as written cannot encode it |
| Day25.ThirteenHasNoEncoding | src/days/day25.rs:37-42 | 13 (base 5 `23`) decodes from `1==`, yet `fmt` as written cannot encode it |
| Day25.CarryFixed | src/days/day25.rs:37-42 | carrying from a leading zero keeps the value and always yields SNAFU digits with no leading zero |
| Day25.FitsWithLeadingZero | src/days/day25.rs:37-42 | base-5 digits fit SNAFU digits one longer |
| Day25.Base5Bound | src/days/day25.rs:32-36 | base-5 digits of length `len` are worth less than `5^len` |
| Day25.Base5Leading | src/days/day25.rs:32-36 | base-5 digits with a non-zero first digit are worth at least `5^(len-1)` |
| Day25.ZeroLedTooSmall | src/days/day25.rs:37-42 | SNAFU digits led by zero cannot equal base-5 digits of the same length with a non-zero first digit |
| Day25.ZeroLed | src/days/day25.rs:20 | a leading zero digit adds nothing |
| Day25.Encode | src/days/day25.rs:27-61 | corrected `fmt`: succeeds iff `n >= -2`, gives a numeral with no leading `0` that decodes to `n` |
| Day25.BalancedUnique | src/days/day25.rs:27-61 | SNAFU digits with no leading zero are determined by their value |
| Day25.CanonicalUnique | src/days/day25.rs:27-61 | so the numeral `fmt` should print is the only one without a leading `0` |
| Day25.Part1AsWritten | src/days/day25.rs:68-78 | over `fmt` as written: `None` iff a line fails or the sum `n` is below -2 or above `MaxBalanced(HighestPow(n) + 1)` (3 and 13, for instance); otherwise a numeral of the sum |
| Day25.Part1 | src/days/day25.rs:68-78 | over the corrected `fmt` (see Findings): the numeral, without a leading `0`, of the sum of the decoded lines; `None` iff a line fails or the sum is below -2 |
| Day25.ExpectedIsNotNumeral | src/days/day25.rs:100 | the answer the test expects, `3`, decodes to nothing |
| Search.Reach | src/days/day12.rs:80-101 | the cells within `k` steps always include the start |
| Search.ClosedHoldsReach | src/days/day12.rs:80-101 | a set holding the start and closed under steps holds every reachable cell |
| Search.WalkReaches | src/days/day12.rs:80-101 | the end of a walk of `m` steps is within `m` steps |
| Search.ReachHasWalk | src/days/day12.rs:80-101 | a cell within `k` steps ends a walk of at most `k` steps from the start |
| Search.PopKeeps | src/days/day12.rs:88 | popping the front of the current level moves it to the expanded cells, and it lies at that level |
| Search.PushKeeps | src/days/day12.rs:93-96 | queueing a fresh successor one step further keeps the queue's invariant |
| Search.LevelUp | src/days/day12.rs:87-88 | once the front is one level further, every cell of the current level has been expanded |
| Search.NoEndBefore | src/days/day12.rs:89-91 | no goal lies nearer than the level reached while expanding no goal |
| Search.Expand | src/days/day12.rs:92-97 | every unexplored neighbour is marked and queued one step further, and nothing else changes |
| Search.Visit | src/days/day12.rs:88-97 | one pass of the loop keeps its invariant and shrinks the queue or the unexplored cells |
| Search.Bfs | src/days/day12.rs:80-101 | the least number of steps within which a goal is reached, or `None` (the panic) iff no goal is reachable |
| Sorting.Sort | src/days/day1.rs:28 | a sorted permutation of the input |
| Sorting.SortUnstable | src/days/day1.rs:28 | `sort_unstable` leaves the array holding a sorted permutation of its contents |
| Largest.SumLastIsLargest | src/days/day1.rs:28-29 | for ascending entries the last `k` have the largest sum of any `k` of them |
| Largest.SumLastIsAttained | src/days/day1.rs:29 | the last `k` entries are themselves a choice of `min(k, len)` entries |
| Text.Split | src/days/day1.rs:7 | `split` always yields at least one piece |
| Text.JoinSplit | src/days/day1.rs:7 | joining the pieces of `split` with the separator gives the input back |
| Text.Lines | src/days/day14.rs:120 | no line of `lines` holds a line end |
| Text.Words | src/days/day1.rs:10 | `split_whitespace` yields non-empty words free of whitespace |
| Text.WordLength | src/days/day1.rs:10 | a word runs up to the first whitespace character |
| Text.ParseI32 | src/days/day1.rs:11 | a parsed `i32` lies in the range of `i32` |
| Text.ParseUsize | src/days/day14.rs:125 | a parsed `usize` lies in the range of a 64-bit `usize` |
| Text.ShowNat | src/days/day13.rs:84 | the decimal form of a number is non-empty and all digits |
| Text.ParseShow | src/days/day13.rs:84 | parsing undoes printing for every `i32` |
| Text.ParseShowUsize | src/days/day14.rs:125 | parsing undoes printing for every `usize` |
| RustInt.Quot | src/days/day21.rs:39 | Rust's `/` truncates towards zero |
| RustInt.Rem | src/days/day25.rs:34 | Rust's `%` takes the sign of the dividend, with a smaller magnitude than the divisor |
| RustInt.ModAdd | src/days/day11.rs:28 | residues can be reduced before adding |
| RustInt.ModMul | src/days/day11.rs:39 | residues can be reduced before multiplying |
| RustInt.ModSquare | src/days/day11.rs:56 | residues can be reduced before squaring |

## Left out

- `src/lib.rs`: it only registers the solutions with the `aoc-runner` crate; it is left out together with the `#[aoc]` attributes.
- Parsers built on the `regex` crate (`src/days/day4.rs`, `day5.rs`, `day15.rs`, `day16.rs`, `day22.rs`): they are foreign calls. The structs they build are the inputs of the model.
- The `parse` functions of days 7, 11, 17, 18, 20, 21, 23 and 24, and day 5's move lines: the model takes the parsed values as its input. Days 7, 18, 20 and 21 and day 5's moves turn each line into one value. Day 11 turns each block of lines between blank lines into one monkey. Day 17 turns each character into one jet, so a trailing `\n` counts as a push to the left. Days 23 and 24 turn the lines into a grid of characters: the elves' cells and the valley's cells.
- Day 22's `parse` builds the row bands, and the program uses a cube layout hard-coded for one input shape. The row bands are the model's input `Grid.bounds`, and nothing is proved about how they are built. Only the faces (`Ranges`, `RangesExample`) and the edges (`Edges`) are constant tables; they are proved consistent for the real and the example layout (`Day22.InputTablesSound`, `Day22.ExampleTablesSound`).
- Fixed-width integers (`i32`, `i64`, `usize`) are unbounded here, so overflow and wrap-around are not modelled, with one exception: the `usize` wrap of day 14 described under `Day14.SpawnTarget` below. Parsing does check the range of `i32` and `usize`.
- Hash maps and sets (`fxhash`) are Dafny maps and sets. Their iteration order is not modelled, and no result depends on it. Preallocated capacities are left out.
- The `rayon` `par_iter` of day 19: the blueprints are searched one after the other.
- Day08.Part1 and Day08.Part2 hold for square grids only, because the source swaps width and height when it enumerates the cells.
- Day25.HighestPow: the `f64` logarithm of `fmt` is read as the exact floor of the base-5 logarithm, and rounding error is not modelled.
- Day23.Part2: the `loop` is bounded by a fuel parameter `limit`. A grove that is still moving after `limit` turns gives `None`.
- Day23.Grove.RunTurn: the source calls `run_turn` on a copy of the grid. The model updates the grove's fields in place.
- Day24.Bfs: the source marks the start explored with its real minute, not the phase. That can only queue the start once more, so the model uses the phase for the start's key as well.
- Day02.Part1: its contract states only the bounds of the total (one to nine points per round); the scores themselves are stated by the lemmas beside it.
- Day02.Part2: likewise states only the bounds; `Day02.Part2IsPart1OfChosen` connects it to part 1.
- Day11.Part1 and Day11.Part2 require every monkey to throw to another monkey of the troop and to test by a non-zero number (`Day11.Troop`). The program panics on a monkey that throws to itself (`split_at_mut` at `src/days/day11.rs:166-170`), on a target out of range and on a test number 0. They also require a non-empty troop (`|input| >= 1`): on no monkeys the program panics in `reduce(Mul::mul).unwrap()` at `src/days/day11.rs:176` and `:214`.
- Day12.Part1 and Day12.Part2 require every row to be as long as the first (`Day12.Valid`) and the start (part 1) or summit (part 2) to lie on the map (`Day12.InBounds`). The program bounds every neighbour by the first row's width (`src/days/day12.rs:18`), so it searches a map whose later rows are longer and returns an answer; on a shorter row it panics only when a visited cell or its neighbour lies past the row's end. Neither case is modelled. The second requirement excludes a map without the marker whose first line is empty, where `elevations[0][0]` panics (`src/days/day12.rs:14` or `:36`), except part 1 with start equal to end, which returns 0.
- Day17.Part1 and Day17Cycle.Part2 require at least one wind. On an empty list the program panics: it reads the first wind and takes indices modulo the list's length.
- Day21.Part1 and Day21.Part2 require a ranking under which every entry's operands exist and rank below it (`Day21.WellFormed`), over all entries, not only those the root reaches. They also require that evaluating the root divides by no zero. The program accepts unreachable malformed entries, panics on a missing operand or a division by zero, and overflows its stack on a cycle.
- Day16.NameMap requires distinct valve names. The program's map keeps the last line of a repeated name, and its node map then lacks the earlier line's key.
- Day16.Part1 and Day16.Part2 require the valves worth opening to have keys below 64 (`Day16.Fits`). A larger key overflows the shift of the bit set.
- Day08.Part2 requires a grid with at least one row. On an empty grid `max` returns `None` and `unwrap` panics.
- Day04.Part2 models the debug build, whose `assert_eq!` is `None`. A release build skips the naive count and returns the shortcut's count, which is the value of `Day04.Part2` whenever it is not `None`.
- Day25.Part1 is the corrected program (see Findings). The program as written panics in `fmt` for sums such as 3 and 13, which `Day25.Part1AsWritten` models.
- Day14.SpawnTarget and Day14.Grid.SpawnSand give `Void` for a grain spawned on a solid source in row 0. That is the release build, where `y + obstacle - 1` at src/days/day14.rs:44 wraps `0 - 1` to `usize::MAX`, which the bounds check after it sends into the void. A debug build panics there instead. For example, with the one segment `499,1 -> 501,1` the first grain rests at the source (500, 0), and the second grain hits this case.
- Day17Cycle.Part2 states the program's answer: the height after `TARGET` rocks when no memo state repeats, and otherwise the extrapolation from the first repeat (or `None` where `max_ys[&0]` panics). The model does not prove that a repeated memo state makes the heights periodic. That would need a proof that a rock's fall commutes with a vertical shift of the pruned tower. So it is not proved that the extrapolation equals the height after `TARGET` rocks. `Day17Cycle.ExtrapolatedHeight` proves that it does when the heights are periodic from the earlier rock on and the leftover `TARGET % diff` lies in the periodic part. When the leftover lies below the earlier rock (`TARGET % diff < rested_src`), the program's base `max_ys[TARGET % diff]` (`src/days/day17.rs:173-174`) is taken before the heights become periodic, so even with periodic heights the program's answer then need not be the height after `TARGET` rocks (that would be `h(r + diff) + (factor - 1) * y_diff`); this is unconfirmed, not executed.
- Day24.Bfs, Day24.Part1 and Day24.Part2 require a valid valley (`Day24.Valid`). Its inner width and height must be at least one, and there must be `height + 2` rows of `width + 2` cells each. The program divides by zero at src/days/day24.rs:117 when the width or height is 0. It indexes out of range at src/days/day24.rs:52 on a row shorter than the first, and the subtraction in its `parse` underflows on fewer than two rows or columns.
- Day06 reads the input as characters where the program reads `as_bytes()` (src/days/day6.rs:5 and 17). The two agree on ASCII input; a multi-byte character is one position here and several in the program.
- Text.Lines splits at `\n` only. Rust's `lines` also drops a `\r` before each `\n`, which the model does not.
- Example tests that need a whole puzzle run are not proved, for instance the 45000 of day 1, 95437 and 24933642 of day 7, and 3068 of day 17. The examples of days 1, 2, 4, 5 and 6 are proved as lemmas. Per-step lemmas and the properties above take the others' place.
- Full-scale runs (10 000 rounds of day 11, 2022 and 10^12 rocks of day 17) are not evaluated. Their steps are proved, together with the cycle formula of day 17.
- Test assertions that contradict the code are not turned into lemmas: `src/days/day11.rs:284`, `src/days/day20.rs:81` and `93`, and `src/days/day23.rs:140` and `152`. For `src/days/day25.rs:100`, `Day25.ExpectedIsNotNumeral` shows that the expected `"3"` is no numeral at all.

## Findings

| source | as written | input that shows it | evidently intended | confidence | as-written member | corrected member |
|---|---|---|---|---|---|---|
| src/days/day25.rs:37-42 | the carry pass reads and writes `digits[i - 1]` even for `i == 0`, so the index underflows and `fmt` panics whenever the carry reaches the first digit, that is iff `n > MaxBalanced(HighestPow(n) + 1)` | n = 3: the single base-5 digit 3 has no digit before it to carry into, yet 3 is `1=`; likewise n = 13 (base 5 `23`), which is `1==` | carry into a new leading digit, giving `1=` for 3 | not executed | Day25.EncodeAsWritten, Day25.ThreeHasNoEncoding | Day25.CarryFixed, Day25.Encode |
