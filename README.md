# Advent of Code 2022, days 1 to 16, in Dafny

This project models the puzzle solvers of the `aoc2022` Python package and
proves properties of them. It covers the shared helpers (`coords.py`,
`grid.py`, `util.py`) and the sixteen daily solvers (`day1.py` to
`day16.py`). Each source file becomes one Dafny module of the same name:
`Coords`, `Grids`, `Util` and `Day1` to `Day16`. Four helper modules supply
the parts of Python the solvers lean on:

- `Wrappers`: `Option` and `Result`. A Python exception (`ValueError`,
  `KeyError`, `IndexError`, a failed `assert`) becomes `None`, and so does a
  loop that never ends.
- `Text`: `str.split`, `str.join`, `str.replace`, `str.strip` and `int()`,
  with round-trip lemmas.
- `Seqs`: sums, reversal, slices and Python's negative list indexing.
- `Ints`: Python's floor `//` and `%`, and congruences.

The model keeps the source's own form:

- Code that computes a value becomes functions over datatypes. Examples are
  `Coords`, the packet comparison of day 13, and the valve parser of day 16.
- Code that changes state becomes methods. They use `while` loops with
  invariants and update classes or arrays in place:
  - the `Grid` classes of `grid.py` and `util.py`;
  - the crate stacks of day 5;
  - the rope of day 9;
  - the monkeys of day 11;
  - the `Simulation` of day 16.
- Each such method is proved against a specification function, and the
  properties are proved as lemmas about that function. Examples:
  - a round trip between a parser and a printer of the puzzle format;
  - an invariant a step keeps (the rope stays taut, crates are conserved,
    the flow rate matches the open valves);
  - a reference definition (the union of the spans, the minimum of the
    path lengths).

The solvers read their puzzle input as a list of lines, which is a
parameter here. They print their answers; here they return them.

## Model

| member | source | states |
|---|---|---|
| Coords.Abs | aoc2022/coords.py:19-20 | both components are non-negative and have the magnitude of the original ones |
| Coords.ManhattanDistance | aoc2022/coords.py:22-24 | the distance is non-negative, zero exactly for equal points, and at least each component's difference |
| Coords.RectNormalize | aoc2022/coords.py:26-28 | each component becomes its sign (-1, 0 or 1) |
| Coords.NormalizeComponent | aoc2022/coords.py:28 | floor division of a component by its magnitude, or by 1 for zero, is its sign |
| Coords.RectDistance | aoc2022/coords.py:30-32 | the distance is the larger component difference, never exceeds the Manhattan distance, and is zero exactly for equal points |
| Coords.AddSubCancel | aoc2022/coords.py:10-14 | subtracting what was added (and adding what was subtracted) gives the point back |
| Coords.AbsIdempotent | aoc2022/coords.py:19-20 | taking abs twice equals taking it once |
| Coords.ManhattanSymmetric | aoc2022/coords.py:22-24 | the Manhattan distance does not depend on the argument order |
| Coords.RectDistanceSymmetric | aoc2022/coords.py:30-32 | the rectangular distance does not depend on the argument order |
| Coords.RectNormalizeIdempotent | aoc2022/coords.py:26-28 | normalising twice equals normalising once, the origin stays put and components stay in -1..1 |
| Coords.ParseShow | aoc2022/coords.py:34-37 | parsing "x,y" written from a point gives the point back |
| Coords.ParseNeedsOneComma | aoc2022/coords.py:34-37 | text that does not split into exactly two comma-separated fields is rejected |
| Coords.ParseNoComma | aoc2022/coords.py:34-37 | text without a comma is rejected |
| Coords.CardInverse | aoc2022/coords.py:40-52 | COMMAND_CARD and UN_COMMAND_CARD are inverse maps |
| Coords.CardUnit | aoc2022/coords.py:40-45 | every command direction is one step away from the origin in both metrics |
| Coords.ArrowKeys | aoc2022/coords.py:47-59 | ARROW has an arrow for exactly the directions UN_COMMAND_CARD names |
| Coords.Parse | aoc2022/coords.py:34-37 | exactly one comma between two integers parses, anything else is an error; ParseShow reads back every coordinate written as "x,y" |
| Day1.GroupTotalOfShown | aoc2022/day1.py:19-21 | a group of written integers totals to their sum |
| Day1.Totals | aoc2022/day1.py:19-21 | totals exist exactly when every line of every group parses, and then one total per group in order |
| Day1.InsertPermutes | aoc2022/day1.py:23 | inserting adds exactly the one element to the multiset |
| Day1.InsertDescending | aoc2022/day1.py:23 | inserting into a descending list keeps it descending |
| Day1.SortDescending | aoc2022/day1.py:23 | the result is descending and a permutation of the input (sort with reverse=True) |
| Day1.CollectTotals | aoc2022/day1.py:18-21 | the loop fails exactly when a group fails to parse, and otherwise yields 0 followed by the group totals |
| Day1.Solve | aoc2022/day1.py:15-28 | the answer is the sum of the first three of a descending permutation of 0 and the totals, and is absent exactly when a line fails to parse |
| Day1.FirstIsLargest | aoc2022/day1.py:23-25 | the first of the ranked totals is at least every total |
| Grids.Fill | aoc2022/grid.py:14-17 | a height-by-width block whose every cell holds the zero value |
| Grids.Updated | aoc2022/grid.py:23-25 | the same shape, the one cell written, and every other cell unchanged |
| Grids.Column | aoc2022/grid.py:38-39 | one entry per row, holding that row's cell at column x |
| Grids.FlattenAt | aoc2022/grid.py:41-47 | in rows of equal width n, cell (i, j) sits at position i*n+j of the row-major listing |
| Grids.FlattenLength | aoc2022/grid.py:41-47 | the row-major listing of h rows of width n has h*n entries |
| Grids.FlattenMember | aoc2022/grid.py:41-47 | a value is in the listing exactly when it is in some row |
| Grids.RowMajorLength | aoc2022/grid.py:44-47 | enumerating a width-by-height grid yields width*height entries |
| Grids.RowMajorCell | aoc2022/grid.py:44-47 | entry y*width+x of the enumeration is (x, y, cell) |
| Grids.Grid.constructor | aoc2022/grid.py:14-17 | the new grid has the given size and every cell holds zero |
| Grids.Grid.Set | aoc2022/grid.py:23-25 | only the addressed cell changes; the size stays |
| Grids.Grid.Row | aoc2022/grid.py:35-36 | row y lists the cells (x, y) for x in 0..width-1 |
| Grids.Grid.SetInRow | aoc2022/grid.py:35-36 | writing through the list row(y) returns changes exactly that cell of the grid |
| Grids.Grid.Col | aoc2022/grid.py:38-39 | column x lists the cells (x, y) for y in 0..height-1 |
| Grids.Grid.EnumerateAllCells | aoc2022/grid.py:44-47 | the enumeration yields width*height entries |
| Grids.Grid.AllCells | aoc2022/grid.py:41-42 | all_cells yields width*height values |
| Grids.Grid.AllCellsAreRows | aoc2022/grid.py:41-47 | all_cells is the rows concatenated top to bottom |
| Grids.Grid.EnumerateAt | aoc2022/grid.py:44-47 | entry y*width+x of the enumeration is (x, y, self[x, y]), and all_cells holds that value there |
| Grids.Grid.Map | aoc2022/grid.py:49-53 | a new grid of the same size whose every cell is the mapper applied to the old cell |
| Grids.Grid.ImgGetSize | aoc2022/grid.py:55-56 | the image size is the grid size times the scale |
| Grids.Grid.Get | aoc2022/grid.py:19-21 | self[x, y] inside the grid; Row, Col and EnumerateAt state the listings through it, and FromLinesGet gives the character a loaded grid holds |
| Grids.FromLines | aoc2022/grid.py:69-81 | fails exactly on no lines or a line longer than the first; otherwise width is the first line's length, height the number of lines, and each cell the character there, or "" past a short line |
| Grids.FromLinesGet | aoc2022/grid.py:77-79 | the cell at (x, y) is the one-character string lines[y][x] |
| Util.SplitByNewline | aoc2022/util.py:11-23 | the loop computes the grouping function Groups |
| Util.ScanContents | aoc2022/util.py:11-23 | the closed groups and the open one together hold exactly the non-blank lines, right-stripped, in order; one group is closed per blank line |
| Util.GroupsFlatten | aoc2022/util.py:11-23 | concatenating the groups gives back every non-blank line, right-stripped, in order |
| Util.GroupsShape | aoc2022/util.py:11-23 | no group holds an empty line; there is one group per blank line plus one for trailing lines, and that last group is not empty |
| Util.RStripIdempotent | aoc2022/util.py:15 | stripping a stripped line changes nothing |
| Util.SplitToChunks | aoc2022/util.py:29-33 | a zero step fails (range raises), a negative step gives no chunks, and a positive step gives the chunks of n consecutive items |
| Util.ChunksFlatten | aoc2022/util.py:29-33 | the chunks concatenated give back the input |
| Util.ChunksShape | aoc2022/util.py:29-33 | there are ceil(len/n) chunks, each of 1..n items, all but the last exactly n |
| Util.Columns | aoc2022/util.py:132-133 | one column per x, each the column of the rows at x |
| Util.ColumnMajorCell | aoc2022/util.py:135-136 | all_cells of this copy lists column by column: cell (x, y) sits at x*height+y |
| Util.Grid.constructor | aoc2022/util.py:108-111 | the new grid has the given size and every cell holds zero |
| Util.Grid.Set | aoc2022/util.py:117-119 | only the addressed cell changes; the size stays |
| Util.Grid.Row | aoc2022/util.py:129-130 | row y lists the cells (x, y) in order of x |
| Util.Grid.Col | aoc2022/util.py:132-133 | column x lists the cells (x, y) in order of y |
| Util.Grid.AllCellsAt | aoc2022/util.py:135-136 | all_cells has width*height values, with cell (x, y) at x*height+y |
| Util.Grid.Get | aoc2022/util.py:113-115 | self[x, y] inside the grid; AllCellsAt places it at x * height + y of the column-major listing |
| Util.AllCellsTransposed | aoc2022/util.py:135-136 | this copy's all_cells is the transpose of grid.py's enumeration: position x*h+y here holds what position y*w+x holds there |
| Util.FromLines | aoc2022/util.py:138-150 | fails exactly on no lines or a line longer than the first; otherwise the grid holds each line's characters as one-character cells |
| Day2.CalcScore | aoc2022/day2.py:63-64 | a score exists exactly for an opponent letter A-C and a shape X-Z; it lies in 1..9 and is the shape score plus a loss, tie or win |
| Day2.Decode | aoc2022/day2.py:67-68 | one field per space-separated piece, each right-stripped |
| Day2.SolveP1 | aoc2022/day2.py:77-83 | the loop's total is the part-one total of the lines, or nothing when a line does not decode into a known pair |
| Day2.Total1Fails | aoc2022/day2.py:77-83 | once a prefix of the lines fails, the whole part-one total fails |
| Day2.SolveP2 | aoc2022/day2.py:86-93 | the loop's total is the part-two total (shape chosen by strat_to_shape), or nothing on a bad line |
| Day2.Total2Fails | aoc2022/day2.py:86-93 | once a prefix of the lines fails, the whole part-two total fails |
| Day2.FightsTable | aoc2022/day2.py:26-42 | each opponent's row covers X-Z with exactly one loss, tie and win, and equal shapes tie |
| Day2.StrategyOutcome | aoc2022/day2.py:44-60 | strat_to_shape picks the shape that loses for X, ties for Y and wins for Z |
| Day2.StrategyBijective | aoc2022/day2.py:44-60 | for each opponent, different strategies pick different shapes |
| Day2.DecodeLine | aoc2022/day2.py:67-68 | a line "e y" with its newline decodes to the two letters |
| Day2.TotalBounds | aoc2022/day2.py:77-93 | each total lies between the number of lines and nine times it |
| Day2.LineScore1 | aoc2022/day2.py:79-82 | a line scores exactly when it decodes to an opponent letter A-C and a shape X-Z, and then scores 1..9 |
| Day2.LineScore2 | aoc2022/day2.py:88-92 | a line scores exactly when it decodes to A-C and X-Z; the score is 1..9 and its outcome part is the loss, tie or win the second column asks for |
| Day3.LineToSections | aoc2022/day3.py:22-24 | the halves concatenate to the line; the first has len//2 characters and the second holds the extra one of an odd line |
| Day3.Priority | aoc2022/day3.py:27-32 | lower-case letters score 1..26 and upper-case letters 27..52 |
| Day3.PriorityInjective | aoc2022/day3.py:27-32 | two letters with the same priority are the same letter |
| Day3.Intersection | aoc2022/day3.py:39-41 | a character is in the intersection exactly when every string of the list holds it |
| Day3.Common | aoc2022/day3.py:39-41 | the same, with no common items for an empty list |
| Day3.CommonItemOfList | aoc2022/day3.py:39-42 | fails exactly when nothing is common (the [0] index raises); otherwise the item is in every string |
| Day3.CommonItem | aoc2022/day3.py:35-36 | fails exactly when the two halves share nothing; otherwise the item is in both |
| Day3.SolveP1 | aoc2022/day3.py:45-50 | fails exactly when some line's halves share nothing; otherwise the total is the sum of one priority per line, each a priority of a shared item |
| Day3.SolveP2 | aoc2022/day3.py:53-57 | fails exactly when some group of three lines shares nothing; otherwise the total sums one badge priority per group |
| Day3.SingleCommonItem | aoc2022/day3.py:45-50 | when the halves share exactly one item, the line's priority is that item's |
| Day3.Priorities | aoc2022/day3.py:27-32 | every item's priority is in the set, and when the items are letters every priority lies in 1..52 |
| Day4.MakeRange | aoc2022/day4.py:20-23 | the constructor orders its ends: the result is a valid range with the two given ends |
| Day4.Parse | aoc2022/day4.py:37-40 | a parsed range is valid (l <= r) |
| Day4.ParseShow | aoc2022/day4.py:37-40 | "a-b" written from two naturals parses to the range with those ends |
| Day4.ParseEnds | aoc2022/day4.py:37-40 | two '-'-free integer texts joined by '-' parse to the range of their values |
| Day4.LineToRanges | aoc2022/day4.py:51-54 | a parsed line gives two valid ranges |
| Day4.CountHits | aoc2022/day4.py:63-77 | a count exists exactly when every line parses, and never exceeds the number of lines |
| Day4.CountPairs | aoc2022/day4.py:63-77 | the count over the lines exists exactly when every line parses, and is at most the line count |
| Day4.CountLines | aoc2022/day4.py:63-77 | the counting loop computes CountPairs |
| Day4.CountHitsStep | aoc2022/day4.py:65-68 | one more line adds one exactly when its pair is a hit |
| Day4.PrefixFails | aoc2022/day4.py:65-66 | once a line fails to parse the whole count fails |
| Day4.SolveP1 | aoc2022/day4.py:63-69 | counts the pairs where one range contains the other |
| Day4.SolveP2 | aoc2022/day4.py:71-77 | counts the pairs that overlap |
| Day4.OverlapsMeansCommonId | aoc2022/day4.py:47-48 | overlaps, with its repeated term, holds exactly when the ranges share an id |
| Day4.OverlapsSymmetric | aoc2022/day4.py:47-48 | overlaps does not depend on the argument order |
| Day4.ContainsRangeMeansSubset | aoc2022/day4.py:31-35 | contains_range holds exactly when every id of the other range is in this one |
| Day4.ContainsRangeOrder | aoc2022/day4.py:31-32 | contains_range is reflexive, transitive and antisymmetric |
| Day4.ContainedOverlaps | aoc2022/day4.py:43-48 | a pair where one range contains the other overlaps |
| Day4.CountContainedAtMostOverlapping | aoc2022/day4.py:63-77 | the part-one count never exceeds the part-two count |
| Day4.CountHitsMonotone | aoc2022/day4.py:63-77 | over parsed pairs, containment hits never exceed overlap hits |
| Day4.Contains | aoc2022/day4.py:34-35 | contains(id) holds for the ids from l up to r; OverlapsMeansCommonId and ContainsRangeMeansSubset are stated with it |
| Day4.ContainsRange | aoc2022/day4.py:31-32 | both ends of the other range lie inside; ContainsRangeMeansSubset shows this is exactly every id of the other being contained |
| Day4.Overlaps | aoc2022/day4.py:47-49 | the source's four-term test; OverlapsMeansCommonId shows it holds exactly when the two ranges share an id |
| Day5.InitializeStacks | aoc2022/day5.py:66-69 | a fresh array of len(first_line)//4 stacks, all empty |
| Day5.LoadRow | aoc2022/day5.py:74-80 | each stack whose column 4x+1 holds a non-space letter gets it on top, and the others are unchanged |
| Day5.LoadRows | aoc2022/day5.py:73-80 | loading keeps the number of stacks |
| Day5.ReverseInPlace | aoc2022/day5.py:72 | the array afterwards holds the reverse of its old contents |
| Day5.LoadRowInto | aoc2022/day5.py:74-80 | the inner loop leaves the stacks equal to LoadRow of the old ones |
| Day5.LoadRowsInto | aoc2022/day5.py:73-80 | the outer loop leaves the stacks equal to LoadRows of the old ones |
| Day5.LoadStacks | aoc2022/day5.py:71-80 | the drawing is reversed in place and the stacks are loaded from every reversed row but the first (the index row) |
| Day5.Moved | aoc2022/day5.py:132-151 | a move keeps the number of stacks |
| Day5.Apply | aoc2022/day5.py:132-151 | an instruction that can be carried out keeps the number of stacks |
| Day5.PopPush | aoc2022/day5.py:139-140 | popping and pushing count times gives Moved with the 9000's reversed order; onto the same stack it changes nothing and needs only a non-empty stack |
| Day5.MovedAt | aoc2022/day5.py:132-151 | stacks that changed only at the source (lost its top block) and the destination (gained it) are exactly the Moved stacks |
| Day5.MovedNothing | aoc2022/day5.py:139-140 | moving no crates changes nothing |
| Day5.Execute | aoc2022/day5.py:132-141 | succeeds exactly when Apply does (both stack numbers valid and enough crates, or a non-empty stack when moving onto itself), and then leaves the stacks Apply gives; otherwise they are unchanged |
| Day5.MoveBlock | aoc2022/day5.py:146-151 | popping into a buffer, reversing it and extending the destination moves the top block in its original order |
| Day5.Execute9001 | aoc2022/day5.py:143-152 | the same for the 9001 crane, which keeps the block's order and needs count crates even when moving onto the same stack |
| Day5.ReversedSuffixStep | aoc2022/day5.py:146-150 | popping one more crate adds it at the end of the reversed block |
| Day5.Tops | aoc2022/day5.py:45-47 | the answer exists exactly when no stack is empty, and then holds the top crate of each stack in order |
| Day5.TopOfStacks | aoc2022/day5.py:45-47 | the answer loop computes Tops |
| Day5.Drawn | aoc2022/day5.py:35-37 | the drawing gives len(lines[0])//4 stacks |
| Day5.ExecuteAll | aoc2022/day5.py:41-42 | the instruction loop succeeds exactly when the whole run does, and then leaves the stacks Run gives |
| Day5.Solve | aoc2022/day5.py:34-64 | solve_p1 and solve_p2 compute Solution: the tops after loading the drawing and running every command, with solve_p1 failing on a drawing of no stacks |
| Day5.RunStep | aoc2022/day5.py:41-42 | running one more command applies it to the stacks so far |
| Day5.RunPrefixFails | aoc2022/day5.py:41-42 | once a command fails, the whole run fails |
| Day5.TotalUpdate | aoc2022/day5.py:132-151 | replacing one stack changes the crate count by the difference in its size |
| Day5.MovedKeepsCrates | aoc2022/day5.py:132-151 | both cranes keep the number of crates |
| Day5.ApplyKeepsCrates | aoc2022/day5.py:132-151 | a successful instruction keeps the number of crates |
| Day5.SingleCrateSameOnBoth | aoc2022/day5.py:132-151 | moving one crate is the same on both cranes |
| Day5.MovedParts | aoc2022/day5.py:132-151 | the source loses its top count crates, the destination gains them (reversed on the 9000), and every other stack is unchanged |
| Day5.BlockBack | aoc2022/day5.py:132-151 | putting a moved block back in the crane's order gives the original block |
| Day5.MoveBack | aoc2022/day5.py:132-151 | moving the same number of crates straight back restores every stack, on either crane |
| Day5.ParseShow | aoc2022/day5.py:154-157 | parse reads back "move c from f to t" as the instruction (f, t, c) |
| Day5.ParseInstruction | aoc2022/day5.py:154-157 | words 3, 5 and 1 as integers give source, destination and count; ParseShow reads back every "move c from f to t" |
| Day5.Run | aoc2022/day5.py:39-43 | the commands applied in order, failing once one fails; RunStep and RunPrefixFails state the step and the failure, and ExecuteAll is proved against it |
| Day5.Solution | aoc2022/day5.py:34-64 | the tops after loading the drawing and running the commands; solve_p1 fails on a drawing with no stacks; Solve is proved against it |
| Day5.SameStackApply | aoc2022/day5.py:132-151 | a move from a stack onto itself leaves every stack as it was; it fails on the 9000 crane only for an empty stack, and on the 9001 when the stack holds fewer crates than asked |
| Day6.ChunkRange | aoc2022/day6.py:43-44 | the window ends at i and starts at max(0, i - size), so it spans min(i, size) characters |
| Day6.FindMarker | aoc2022/day6.py:30-36 | the scan returns the first i below its limit whose preceding window has chunk_size distinct characters, or -1 when there is none |
| Day6.GetMessageStart | aoc2022/day6.py:26-41 | an empty line fails (l and r are unbound after the loop); otherwise the first marker among positions 0..len-1, or -1 |
| Day6.GetMessageStartInclusive | aoc2022/day6.py:26-41 | the corrected scan also examines the window ending at the last character: the first marker among 0..len, or -1 |
| Day6.MarkerAfterFullWindow | aoc2022/day6.py:31-34 | a marker position is at least chunk_size, and its window holds exactly chunk_size characters |
| Day6.MarkerDistinct | aoc2022/day6.py:33-34 | the characters of a marker's window are pairwise different |
| Day6.FinalWindowMissed | aoc2022/day6.py:30 | on "abcd" with chunk size 4 the only marker is at 4, which range(len(line)) never reaches |
| Day6.IsMarker | aoc2022/day6.py:31-34 | the window before i holds exactly chunk_size distinct characters; MarkerDistinct and DistinctIsMarker show this is a full window of pairwise distinct characters |
| Day6.DistinctIsMarker | aoc2022/day6.py:33-34 | a full window of chunk_size pairwise distinct characters is a marker (the converse of MarkerDistinct) |
| Day7.FindFolder | aoc2022/day7.py:30 | the dictionary lookup finds the first folder with that name, and nothing exactly when no folder has it |
| Day7.FindFile | aoc2022/day7.py:29 | the same lookup for files |
| Day7.PutFolder | aoc2022/day7.py:80 | after the assignment the key holds the new folder |
| Day7.PutFile | aoc2022/day7.py:82 | after the assignment the key holds the new file |
| Day7.FolderFound | aoc2022/day7.py:30 | the first folder with the name is the one found |
| Day7.FileFound | aoc2022/day7.py:29 | the first file with the name is the one found |
| Day7.ParseCommand | aoc2022/day7.py:70-75 | a line not starting with '$' is no command; "ls" as the second word is Ls; otherwise Cd of the third word, and too few words raise |
| Day7.UpdateDir | aoc2022/day7.py:77-82 | succeeds exactly for a two-word line that is "dir name" or an integer size and a name, and keeps the folder's name and estimate |
| Day7.UpdateAt | aoc2022/day7.py:77-82 | updating the current folder inside the tree keeps the root's name |
| Day7.ReplayCommandLines | aoc2022/day7.py:84-100 | fails exactly when replaying the lines raises, and otherwise returns the rebuilt tree with every size estimated |
| Day7.ReplayPrefixFails | aoc2022/day7.py:87-98 | once a line raises, the whole replay fails |
| Day7.Estimated | aoc2022/day7.py:102-108 | every folder's estimate is its files' sizes plus its children's estimates, children estimated first |
| Day7.SubFiles | aoc2022/day7.py:102-108 | one list of all files per sub-folder, in order |
| Day7.AllDirs | aoc2022/day7.py:110-118 | the list starts with the root folder |
| Day7.SelectToDelete | aoc2022/day7.py:62-67 | the stable sort and scan select the first folder of least size at least the target, and nothing when every folder is smaller |
| Day7.SolveP2 | aoc2022/day7.py:56-67 | fails exactly when replaying raises; otherwise the chosen folder is listed, freeing it leaves 30000000 of the 70000000 free, no folder that would do is smaller, and no earlier one is as small |
| Day7.FilesTotalAppend | aoc2022/day7.py:106 | summing file sizes distributes over concatenation |
| Day7.ChildSumFlatten | aoc2022/day7.py:107 | the children's estimates, when each is its files' total, add up to the total of all their files |
| Day7.EstimateIsTotal | aoc2022/day7.py:102-108 | a folder's estimate is the total size of every file anywhere below it |
| Day7.AllEstimated | aoc2022/day7.py:102-118 | every folder that all_dirs lists after estimate_size has an estimate equal to its files plus its children |
| Day7.ResolvedListed | aoc2022/day7.py:110-118 | every folder that a path of cd commands reaches is in all_dirs |
| Day7.StepKeepsCd | aoc2022/day7.py:87-98 | each replayed line keeps the current folder a folder of the tree |
| Day7.ResolvePrefix | aoc2022/day7.py:91-92 | the parent of a reachable folder is reachable (cd .. stays inside the tree) |
| Day7.UpdateKeepsPath | aoc2022/day7.py:89-90 | a listing line keeps the current folder reachable |
| Day7.DirLineAddsFolder | aoc2022/day7.py:79-80 | "dir x" leaves an empty folder x inside the current folder |
| Day7.DirAt | aoc2022/day7.py:79-80 | any line whose words are "dir" and x leaves an empty folder x inside the current folder |
| Day7.Replay | aoc2022/day7.py:84-99 | the shell after the lines in order, failing once a line raises; ReplayCommandLines is proved against it and StepKeepsCd keeps its current folder in the tree |
| Day7.Step | aoc2022/day7.py:87-98 | one line: cd /, cd .., cd into a listed folder, ls, or a listing line; StepKeepsCd shows the current folder stays reachable |
| Day7.Resolve | aoc2022/day7.py:96 | the folder a path of cd names leads to; ResolvedListed shows every such folder is in all_dirs |
| Day7.SolveP1 | aoc2022/day7.py:51-54 | fails exactly when replaying the lines raises; otherwise the total of the estimates below 100000, which EstimateIsTotal shows are the folders' file totals |
| Day8.OfCharDigit | aoc2022/day8.py:30-32 | a one-character cell loads exactly when it is a decimal digit, as an unseen cell of that height with score 0 |
| Day8.Forest | aoc2022/day8.py:35 | a loaded grid is a non-empty rectangle of heights with one row per line |
| Day8.ForestHeights | aoc2022/day8.py:30-32 | every loaded height is a single digit |
| Day8.CellOf | aoc2022/day8.py:30-32 | of_char gives an unseen cell with score 0 |
| Day8.LoadsOfText | aoc2022/day8.py:35 | the grid loads exactly when every cell of the text grid is an integer |
| Day8.LoadedCells | aoc2022/day8.py:35 | mapping the text grid gives each cell its height, unseen, score 0 |
| Day8.Load | aoc2022/day8.py:35 | from_lines then map(Cell.of_char) fails exactly when a cell is not an integer, and otherwise gives fresh cells with the heights |
| Day8.Heights | aoc2022/day8.py:80-81 | the heights of a list of cells, in order |
| Day8.TallestBound | aoc2022/day8.py:74-78 | being above the running maximum cur_height is being taller than every tree so far |
| Day8.Along | aoc2022/day8.py:73-78 | the heights along a path, one per position |
| Day8.ProcessVisibility | aoc2022/day8.py:73-78 | the pass marks visible exactly the cells taller than every cell before them on the path, and changes nothing else |
| Day8.SeenIffTaller | aoc2022/day8.py:76-78 | the test c.value > cur_height holds exactly for trees taller than all before them, and cur_height becomes the running maximum |
| Day8.MarkStep | aoc2022/day8.py:75-78 | one more cell of the pass is marked exactly when it is seen |
| Day8.LitStep | aoc2022/day8.py:75-78 | one more position marks that position if seen, and no other |
| Day8.LitOnce | aoc2022/day8.py:75-78 | on a path that visits a cell once, the cell ends marked exactly when it is seen there |
| Day8.SeenReversed | aoc2022/day8.py:41 | seen from the start of the reversed line is seen from the end of the line |
| Day8.RowPath | aoc2022/day8.py:39 | grid.row(y) visits (0, y) .. (w-1, y) |
| Day8.ColPath | aoc2022/day8.py:44 | grid.col(x) visits (x, 0) .. (x, h-1) |
| Day8.RowPasses | aoc2022/day8.py:38-41 | the two passes over row y mark the cells of row y seen from the left and from the right |
| Day8.ColAlong | aoc2022/day8.py:43-46 | walking column x down, and back up, reads the column's heights and their reverse |
| Day8.ColDown | aoc2022/day8.py:45 | the pass down column x marks the cells of column x seen from the top |
| Day8.ColUp | aoc2022/day8.py:46 | the pass up column x marks the cells of column x seen from the bottom |
| Day8.ColPasses | aoc2022/day8.py:43-46 | the two passes over column x mark its cells seen from the top and from the bottom |
| Day8.CountVisible | aoc2022/day8.py:53 | the count of visible cells never exceeds the number of cells |
| Day8.RowStep | aoc2022/day8.py:38-41 | both passes over row y extend the finished rows by row y |
| Day8.ColumnStep | aoc2022/day8.py:43-46 | both passes over column x extend the finished columns by column x |
| Day8.PassRows | aoc2022/day8.py:38-41 | the row loop leaves every cell marked exactly when seen from the left or the right |
| Day8.PassColumns | aoc2022/day8.py:43-46 | the column loop then adds the cells seen from the top or the bottom |
| Day8.NoRowsDone | aoc2022/day8.py:35 | the freshly loaded grid is the state before any row pass |
| Day8.RowsThenColumns | aoc2022/day8.py:38-46 | every row passed is the state before any column pass |
| Day8.ColumnsMarked | aoc2022/day8.py:38-46 | after all four kinds of pass the grid is Marked: a cell is visible exactly when seen from some side |
| Day8.SolveP1 | aoc2022/day8.py:34-53 | fails exactly when the grid does not load; otherwise counts the trees visible from some side |
| Day8.EdgeVisible | aoc2022/day8.py:73-78 | a tree on the edge of the grid is visible |
| Day8.EdgesVisible | aoc2022/day8.py:34-53 | every edge tree of a loaded grid is visible and marked |
| Day8.CalculateView | aoc2022/day8.py:80-96 | the two loops compute the viewing distances towards the start and towards the end |
| Day8.StepsBeforeMeaning | aoc2022/day8.py:82-87 | the view towards the start stops at the first tree at least as tall, or at the edge, and every tree passed is shorter |
| Day8.StepsAfterMeaning | aoc2022/day8.py:90-95 | the view towards the end stops at the first tree at least as tall, or at the edge, and every tree passed is shorter |
| Day8.EdgeScoreZero | aoc2022/day8.py:60-63 | a tree on the edge scores 0 |
| Day8.ScoreStep | aoc2022/day8.py:60-63 | setting the score of (x, y) extends the scored prefix by one cell |
| Day8.LinesOfGrid | aoc2022/day8.py:61-62 | the column and the row given to calculate_view hold the heights of the grid |
| Day8.ScoreAll | aoc2022/day8.py:60-63 | the enumeration loop gives every cell its scenic score, the product of its four views |
| Day8.LargestScore | aoc2022/day8.py:66-70 | the largest entry of the score grid is the score of some tree, and no tree scores more |
| Day8.SolveP2 | aoc2022/day8.py:56-70 | fails exactly when the grid does not load; otherwise the highest scenic score of any tree |
| Day8.OfChar | aoc2022/day8.py:30-32 | int(char) as the height; OfCharDigit shows exactly the digits load, with nothing seen and score 0 |
| Day8.Visible | aoc2022/day8.py:34-46 | seen from the left, the right, the top or the bottom; EdgeVisible shows every edge tree is visible |
| Day8.Score | aoc2022/day8.py:60-63 | the product of the four viewing distances; EdgeScoreZero and LargestScore state the edge case and the maximum part 2 takes |
| Day9.Repeat | aoc2022/day9.py:27 | a string times n is empty for n <= 0 and otherwise n times as long |
| Day9.LineOfShown | aoc2022/day9.py:26-28 | a line "D 3" expands to three copies of its letter |
| Day9.RepeatLetter | aoc2022/day9.py:27 | a one-letter string times n is n copies of the letter |
| Day9.StepCount | aoc2022/day9.py:26-28 | the joined command string of shown lines has one letter per counted step |
| Day9.FlattenLengths | aoc2022/day9.py:26 | joining pieces of the given lengths gives their total length |
| Day9.Drag | aoc2022/day9.py:57-59 | dragging keeps the number of knots |
| Day9.Move | aoc2022/day9.py:52-59 | a step keeps the number of knots |
| Day9.Advance | aoc2022/day9.py:32-38 | a step keeps the rope's length and records one more tail position |
| Day9.Simulate | aoc2022/day9.py:32-38 | the run keeps the rope's length and records one tail position per command letter |
| Day9.SimulateStep | aoc2022/day9.py:32-38 | one more command advances the simulated prefix by one step |
| Day9.SimulatePrefixFails | aoc2022/day9.py:35 | once a command letter is not in COMMAND_CARD, the run fails |
| Day9.Start | aoc2022/day9.py:49 | n knots at the origin |
| Day9.SolveP1 | aoc2022/day9.py:25-41 | fails exactly when a line or a letter is bad; otherwise the final head, the final tail and the number of distinct tail positions recorded before each step |
| Day9.MovePair | aoc2022/day9.py:35-38 | a two-knot rope moves its head by the command's unit and lets the tail follow |
| Day9.DragKnots | aoc2022/day9.py:57-59 | the zip loop makes each knot follow the already updated knot in front of it |
| Day9.DragStep | aoc2022/day9.py:57-59 | dragging one more knot moves it from the rest of the rope to the finished part |
| Day9.MoveRope | aoc2022/day9.py:55-59 | one step moves the head by the command's unit and drags the other knots |
| Day9.SolveP2 | aoc2022/day9.py:44-62 | fails exactly when a line or a letter is bad; otherwise the number of distinct positions of the tenth knot |
| Day9.RunRope | aoc2022/day9.py:52-59 | the loop over the commands fails exactly when the simulation from the starting rope fails, and otherwise records the same last-knot history |
| Day9.HeadMovesOneUnit | aoc2022/day9.py:35 | the head moves exactly one orthogonal unit per step |
| Day9.FollowSteps | aoc2022/day9.py:37-38 | a knot moves only when its leader is more than 1 away, and then by at most 1 on each axis |
| Day9.FollowCloses | aoc2022/day9.py:37-38 | a leader at most 2 away is at most 1 away after the follower's update |
| Day9.ShiftDistance | aoc2022/day9.py:37-38 | moving one knot by at most 1 on each axis grows its distance to another by at most 1 |
| Day9.DragTaut | aoc2022/day9.py:57-59 | dragging a taut line of knots behind a leader at most 2 from the first leaves a taut rope |
| Day9.MoveKeepsTaut | aoc2022/day9.py:55-59 | a unit step of the head followed by the drag keeps every pair of adjacent knots touching |
| Day9.UnitShift | aoc2022/day9.py:35 | a step by a unit vector stays within 1 |
| Day9.TautTail | aoc2022/day9.py:57-59 | the knots behind the head of a taut rope are taut |
| Day9.SimulateTaut | aoc2022/day9.py:29-59 | throughout a run from the origin adjacent knots touch; one tail position is recorded per step, the first being the origin |
| Day9.Follow | aoc2022/day9.py:36-37 | the tail's update; FollowSteps shows it stays put when touching and moves at most one step, and FollowCloses that it then touches the head |
| Day10.Cycles | aoc2022/day10.py:27-35 | noop takes 1 cycle and addx takes 2 |
| Day10.ParseShown | aoc2022/day10.py:41-48 | every instruction parses back from its text |
| Day10.ParseAddx | aoc2022/day10.py:45-46 | "addx " and a spaceless integer parse as that addx |
| Day10.ParseProgram | aoc2022/day10.py:92 | the program parses exactly when every line does, one instruction per line |
| Day10.StepsAfter | aoc2022/day10.py:98-105 | one register value per cycle of the instruction |
| Day10.StepsDuring | aoc2022/day10.py:119-127 | one register value per cycle of the instruction |
| Day10.TraceShape | aoc2022/day10.py:97-105 | one trace entry per cycle; the register ends at its start plus every addx amount |
| Day10.DuringIsAfterShifted | aoc2022/day10.py:118-127 | the register during a cycle is its value at the end of the cycle before, or the start value in the first cycle |
| Day10.RegisterChanges | aoc2022/day10.py:99-104 | rx changes only at the end of the last cycle of an addx, by its amount |
| Day10.SampledMeaning | aoc2022/day10.py:63 | the sampling test is (c - 20) % 40 == 0 |
| Day10.IncrementCycleRecords | aoc2022/day10.py:61-65 | increment_cycle adds one to the cycle, and appends (cycle, rx) exactly when the new cycle is sampled |
| Day10.SamplesMeaning | aoc2022/day10.py:97-105 | a sample is recorded exactly for each sampled cycle the program reaches, holding the register then |
| Day10.SampleIsDuring | aoc2022/day10.py:97-105 | each recorded sample holds the register during its cycle |
| Day10.SamplesOrdered | aoc2022/day10.py:97-105 | samples are recorded in increasing cycle order |
| Day10.SignalTotal | aoc2022/day10.py:107 | reduce without a start value fails on no strengths, and otherwise adds them up |
| Day10.SignalNeedsCycle20 | aoc2022/day10.py:107 | there is a strength to add exactly when the program reaches cycle 20 |
| Day10.StrengthsOfMember | aoc2022/day10.py:107 | a sample between cycles 20 and 220 gives a strength |
| Day10.StrengthsEmpty | aoc2022/day10.py:107 | samples outside cycles 20..220 give no strength |
| Day10.ProgramStep | aoc2022/day10.py:97-105 | one more instruction extends the traces by its cycles |
| Day10.SampleAppend | aoc2022/day10.py:105 | one more cycle adds the sample increment_cycle takes, if any |
| Day10.SampleInstruction | aoc2022/day10.py:98-105 | the wait loop of one instruction updates rx, the cycle and the samples as the trace does |
| Day10.SolveP1 | aoc2022/day10.py:91-107 | fails on a bad line; otherwise the sum of cycle times register over the samples of cycles 20..220, failing when there are none |
| Day10.ScreenPosBounds | aoc2022/day10.py:78-80 | every cycle draws a cell inside the 40 by 6 display |
| Day10.ScreenPosMeaning | aoc2022/day10.py:78-80 | the cell a cycle draws is number (cycle - 1) % 240 in row-major order |
| Day10.Pixel | aoc2022/day10.py:85-88 | the pixel is "#" exactly when the sprite at rx covers the column, and "." otherwise |
| Day10.UpdateDisplay | aoc2022/day10.py:78-88 | exactly the cell of the cycle is written, with the pixel for rx |
| Day10.Screen | aoc2022/day10.py:114 | the display is 40 by 6 |
| Day10.ScreenAppend | aoc2022/day10.py:121 | one more cycle draws the cell update_display writes |
| Day10.LastDraw | aoc2022/day10.py:78-80 | the last of the first n cycles that draws a cell, or none when no cycle reaches it |
| Day10.ScreenCell | aoc2022/day10.py:110-127 | each cell shows the pixel of the last cycle that drew it, or "." when none did |
| Day10.LastFrame | aoc2022/day10.py:78-80 | with at least 240 cycles every cell was last drawn within the last 240 |
| Day10.DrawnBefore | aoc2022/day10.py:78-80 | a cell drawn by some cycle has a last drawing at or after it |
| Day10.SamePos | aoc2022/day10.py:79-80 | a cell number has one column and one row |
| Day10.DrawInstruction | aoc2022/day10.py:119-127 | the wait loop of one instruction draws one cell per cycle with the register during that cycle |
| Day10.SolveP2 | aoc2022/day10.py:110-129 | fails on a bad line; otherwise the display is Screen of the register during every cycle |
| Day10.ParseInstruction | aoc2022/day10.py:41-48 | "noop", or "addx" and an integer, else an error; ParseShown reads back every instruction |
| Day10.After | aoc2022/day10.py:97-104 | the register at the end of every cycle; TraceShape and DuringIsAfterShifted relate it to the values during the cycles |
| Day10.During | aoc2022/day10.py:117-124 | the register during every cycle; DuringIsAfterShifted shows it is the start value, then After shifted by one |
| Day10.Samples | aoc2022/day10.py:61-65 | the recorded (cycle, x) pairs; SamplesMeaning shows they are exactly the sampled cycles with the register during them |
| Day10.Strengths | aoc2022/day10.py:107 | cycle * x for the samples between cycles 20 and 220; SignalTotal shows the answer is their sum and fails when there are none |
| Day10.ScreenPos | aoc2022/day10.py:78-80 | column and row of the cycle; ScreenPosMeaning shows row * 40 + column is (cycle - 1) mod 240 |
| Day11.EvalCongruent | aoc2022/day11.py:32-73 | evaluating an operation on two worry levels congruent modulo m gives congruent results |
| Day11.OperandShape | aoc2022/day11.py:37-49 | an operand's text is non-empty, has no blank at either end, and holds no space and no 'n' |
| Day11.ParseShownOperand | aoc2022/day11.py:80-85 | parse_sub reads back the text of old or of a constant |
| Day11.SplitThree | aoc2022/day11.py:87 | three space-free words joined by single spaces split back into the words |
| Day11.DropAssignment | aoc2022/day11.py:87 | removing "new = " and stripping leaves the right-hand side |
| Day11.ParseThreePieces | aoc2022/day11.py:88-95 | three pieces parse to the operator applied to the two parsed operands |
| Day11.BodyShape | aoc2022/day11.py:87 | the right-hand side has no 'n' and no blanks at its ends |
| Day11.ParseAssignment | aoc2022/day11.py:79-95 | "new = a op b" parses to the operation op makes of what a and b parse to |
| Day11.ParseExprVia | aoc2022/day11.py:87-95 | parse_expr reads the pieces of the stripped right-hand side |
| Day11.OperatorShape | aoc2022/day11.py:90-95 | the operator's text is one character and reads back as the operation |
| Day11.ParseShownExpr | aoc2022/day11.py:79-95 | every operation the parser produces parses back from the text __repr__ gives it, after any blanks |
| Day11.ParseMonkeys | aoc2022/day11.py:143 | the monkeys parse exactly when every group does, one monkey per group |
| Day11.ItemTexts | aoc2022/day11.py:110 | one text per item, each a blank and the number |
| Day11.DropLabel | aoc2022/day11.py:118-126 | removing a label that follows blanks leaves the blanks and the rest |
| Day11.NumberLine | aoc2022/day11.py:124-126 | a labelled number line parses back to its number |
| Day11.IdLine | aoc2022/day11.py:118 | the id line parses back to the id |
| Day11.JoinPadFirst | aoc2022/day11.py:119-122 | blanks in front of a join attach to its first piece |
| Day11.PaddedItems | aoc2022/day11.py:119-122 | one piece per item |
| Day11.ItemsPieces | aoc2022/day11.py:119-122 | the items line splits at its commas into the padded item texts |
| Day11.ItemsValues | aoc2022/day11.py:119-122 | the padded item texts parse to the items |
| Day11.ParseSixLines | aoc2022/day11.py:116-127 | six lines whose pieces parse give the monkey made of those pieces, with count 0 |
| Day11.ShowExprAvoids | aoc2022/day11.py:60-73 | an operation's text uses only "new=old*+", digits, '-' and blanks |
| Day11.ShownIdLine | aoc2022/day11.py:109-118 | the written id line parses back to the id |
| Day11.ShownItemsLine | aoc2022/day11.py:110-122 | the written items line parses back to the items |
| Day11.ItemsLine | aoc2022/day11.py:119-122 | the items line, written out, reads back as the items |
| Day11.ShownOperationLine | aoc2022/day11.py:111-123 | the written operation line parses back to the operation |
| Day11.ShownNumberLines | aoc2022/day11.py:112-126 | the written test and target lines parse back to the divisor and the two targets |
| Day11.ParseShownMonkey | aoc2022/day11.py:108-127 | parse reads back the six lines a monkey is written as, with its count reset to 0 |
| Day11.Throw | aoc2022/day11.py:149-169 | a throw keeps the number of monkeys, and fails exactly when the inspection fails, the target id is out of range, or the target is the thrower |
| Day11.ThrowAll | aoc2022/day11.py:149-169 | throwing a list of items keeps the number of monkeys |
| Day11.Turn | aoc2022/day11.py:147-170 | a turn keeps the number of monkeys |
| Day11.RoundFrom | aoc2022/day11.py:147-170 | the remaining turns of a round keep the number of monkeys |
| Day11.Round | aoc2022/day11.py:147-170 | a round keeps the number of monkeys |
| Day11.Rounds | aoc2022/day11.py:145-170 | n rounds keep the number of monkeys |
| Day11.InspectThirds | aoc2022/day11.py:151-163 | part one's inspection fails exactly for a zero test; otherwise it keeps the floor of a third of the new worry, and the item goes to the true monkey exactly when the test divides it |
| Day11.InspectModulo | aoc2022/day11.py:205-217 | part two's inspection, with a modulus every test divides, keeps a remainder congruent to the new worry, and the item goes where the unreduced worry would send it |
| Day11.TotalItemsUpdate | aoc2022/day11.py:168 | replacing one monkey changes the item total by the change in its items |
| Day11.ThrowEffect | aoc2022/day11.py:149-169 | one throw adds one to the thrower's count, only appends to the other monkeys, and adds one item in all |
| Day11.ThrowAllEffect | aoc2022/day11.py:149-169 | throwing n items adds n to the thrower's count, only appends to the others, and adds n items in all |
| Day11.TurnEffect | aoc2022/day11.py:147-170 | a turn empties the monkey, adds its item count to its inspections, only appends to the others, and conserves the items |
| Day11.RoundFromEffect | aoc2022/day11.py:147-170 | the remaining turns keep every monkey's fixed fields, never lower a count and conserve the items |
| Day11.RoundsEffect | aoc2022/day11.py:145-170 | every number of rounds keeps the fixed fields, never lowers a count and conserves the items |
| Day11.InspectAgree | aoc2022/day11.py:205-217 | reducing modulo m and keeping the worry whole send congruent items to the same monkey with congruent worry |
| Day11.ThrowAgree | aoc2022/day11.py:203-218 | a reduced throw and a whole throw fail together, and otherwise leave related monkeys |
| Day11.TestsKeptByThrows | aoc2022/day11.py:203-218 | throws keep every test dividing m |
| Day11.TestsKept | aoc2022/day11.py:199-219 | rounds keep every test dividing m |
| Day11.ThrowAllAgree | aoc2022/day11.py:203-218 | throwing congruent lists fails together and otherwise leaves related monkeys |
| Day11.TurnAgree | aoc2022/day11.py:201-219 | reduced and whole turns fail together and otherwise leave related monkeys |
| Day11.RoundFromAgree | aoc2022/day11.py:201-219 | reduced and whole turns from any position fail together and otherwise leave related monkeys |
| Day11.RoundsAgree | aoc2022/day11.py:199-219 | reduced and whole rounds fail together and otherwise end with the same counts and congruent items |
| Day11.Counts | aoc2022/day11.py:180 | the inspection count of every monkey, in order |
| Day11.Top | aoc2022/day11.py:178-183 | a position, or -1 for none |
| Day11.TopMeaning | aoc2022/day11.py:178-183 | Top finds the first position, other than the one skipped, with the highest count: the head of a stable descending sort |
| Day11.BusinessOfTopTwo | aoc2022/day11.py:178-189 | with at least two monkeys whose ids are their positions, the business is the highest count times the highest of the others |
| Day11.BusinessOfOne | aoc2022/day11.py:178-189 | a single monkey's business is its own count |
| Day11.BusinessRelated | aoc2022/day11.py:227-238 | the business depends only on the ids and the counts |
| Day11.ProductDivides | aoc2022/day11.py:197 | with no zero test the product of the tests is non-zero and every test divides it |
| Day11.Part2Unreduced | aoc2022/day11.py:195-241 | keeping the worry modulo the product of the tests gives the answer keeping it whole would |
| Day11.MonkeyTurn | aoc2022/day11.py:149-170 | the item loop succeeds exactly when the turn does, and then leaves the monkeys Turn gives |
| Day11.PlayRound | aoc2022/day11.py:147-170 | the monkey loop succeeds exactly when the round does, and then leaves the monkeys Round gives |
| Day11.PlayRounds | aoc2022/day11.py:145-170 | the round loop succeeds exactly when the rounds do, and then leaves the monkeys Rounds gives |
| Day11.LoadMonkeys | aoc2022/day11.py:143 | fails exactly when a group does not parse, and otherwise gives a fresh array of the parsed monkeys |
| Day11.ToArray | aoc2022/day11.py:143 | a fresh array holding the monkeys |
| Day11.SolveP1 | aoc2022/day11.py:142-192 | the monkey business after 20 rounds that divide the worry by 3 |
| Day11.SolveP2 | aoc2022/day11.py:195-241 | the monkey business after 10000 rounds that keep the worry modulo the product of the tests |
| Day11.ParseMonkey | aoc2022/day11.py:116-127 | six labelled lines give a monkey, else an error; ParseShownMonkey reads back every monkey written in the puzzle's format, with its count reset |
| Day11.ParseExpr | aoc2022/day11.py:79-96 | "new = a op b" with op * or +; ParseShownExpr reads back every expression, whatever blanks precede it |
| Day11.Eval | aoc2022/day11.py:33-72 | the operation on the old worry level; EvalCongruent shows it keeps congruence modulo any non-zero number |
| Day11.Inspect | aoc2022/day11.py:151-168 | the new worry level and the target; InspectThirds and InspectModulo state the division by 3 and that reducing modulo a multiple of the test keeps the target |
| Day11.MonkeyBusiness | aoc2022/day11.py:178-190 | the product of the two highest counts; BusinessOfOne covers a single monkey and BusinessRelated shows related states give the same business |
| Day11.Part1 | aoc2022/day11.py:142-192 | parse, 20 rounds with relief, then the business; SolveP1 is proved against it |
| Day11.Part2 | aoc2022/day11.py:195-241 | parse, 10000 rounds modulo the product of the tests, then the business; Part2Unreduced shows it equals the rounds without any reduction |
| Day12.FromChar | aoc2022/day12.py:35-40 | a cell exists exactly for a one-character text; 'S' stands at elevation 0 and 'E' at 25, a lowercase letter at its distance from 'a', and the direction list is empty |
| Day12.ReachableLetters | aoc2022/day12.py:43-44 | between lowercase squares a step is allowed exactly when it climbs at most one letter |
| Day12.EndEnteredFromTop | aoc2022/day12.py:38-44 | the end square 'E' is entered only from 'y', 'z' or 'E' |
| Day12.StartLeadsToLowlands | aoc2022/day12.py:38-44 | from the start square 'S' only 'a', 'b' and 'S' can be entered |
| Day12.KeptMembers | aoc2022/day12.py:51-54 | the kept neighbours are exactly those of the enumeration that pass the distance and climbing tests |
| Day12.KeptDistinct | aoc2022/day12.py:51-54 | keeping part of a duplicate-free enumeration leaves no duplicates |
| Day12.AllReachableNeighbors | aoc2022/day12.py:47-56 | the loop keeps, in enumeration order, the neighbours one orthogonal step away that the cell can climb to |
| Day12.ReachableNeighboursMeaning | aoc2022/day12.py:47-56 | whatever the enumeration order, the result holds exactly the on-grid squares one orthogonal step away with elevation at most one above, each once |
| Day12.ShortestIsMinimum | aoc2022/day12.py:125-134 | the scan fails exactly when a path ends off the grid; otherwise it keeps the least of the start value and the step counts of the paths from elevation 0 |
| Day12.LowestStartMeaning | aoc2022/day12.py:124-136 | the answer is the fewest steps over the paths starting at elevation 0, unless the first path's length (the start value) is smaller still |
| Day12.MinStartLength | aoc2022/day12.py:124-134 | the loop reverses every path in place and computes LowestStart, failing on a vertex off the grid |
| Day12.Shortest | aoc2022/day12.py:124-134 | the minimum the loop keeps; ShortestIsMinimum shows it is at most every path from the lowest elevation and is one of them or the start value |
| Day12.LowestStart | aoc2022/day12.py:123-134 | the part 2 answer starting from len(paths[0]); LowestStartMeaning shows it is the least step count among paths from the lowest elevation, or that start |
| Day13.ParseJsonList | aoc2022/day13.py:48-49 | a parsed list has one packet per element |
| Day13.ToJsonList | aoc2022/day13.py:40-41 | one JSON value per packet |
| Day13.ParseToJson | aoc2022/day13.py:47-51 | every packet is read back from its own JSON |
| Day13.ParseToJsonList | aoc2022/day13.py:48-49 | every list of packets is read back from its JSON array |
| Day13.ParseJsonListAll | aoc2022/day13.py:48-49 | a list parses exactly when each element does, element by element |
| Day13.ConstWrapped | aoc2022/day13.py:63-66 | an integer against a list compares as the one-element list holding it, on either side |
| Day13.CompareSelf | aoc2022/day13.py:59-80 | every packet is undecided against itself |
| Day13.CompareListsSelf | aoc2022/day13.py:67-79 | every list is undecided against itself |
| Day13.CompareFlip | aoc2022/day13.py:59-80 | swapping the packets negates the comparison |
| Day13.CompareListsFlip | aoc2022/day13.py:67-79 | swapping the lists negates the comparison |
| Day13.CompareListsFirstDifference | aoc2022/day13.py:68-78 | the first element pair that compares non-zero decides |
| Day13.CompareListsByLength | aoc2022/day13.py:68-79 | with no deciding pair, the shorter left list gives 1, the shorter right list -1, equal lengths 0 |
| Day13.OrderedIndicesMeaning | aoc2022/day13.py:83-92 | the indices fail exactly when a pair fails to load; otherwise they are, increasing, exactly the 1-based numbers of the pairs that compare positive |
| Day13.SolveP1 | aoc2022/day13.py:83-92 | the loop gives the sum of the indices of the pairs in the right order |
| Day13.DescendingSnoc | aoc2022/day13.py:99 | a packet at or below the last one extends a descending list |
| Day13.InsertContents | aoc2022/day13.py:99 | inserting adds exactly the one packet |
| Day13.InsertLast | aoc2022/day13.py:99 | inserting grows the list by one, ending with the new packet or the old last one |
| Day13.InsertDescending | aoc2022/day13.py:99 | inserting into a descending list keeps it descending |
| Day13.SortDescendingMeaning | aoc2022/day13.py:99 | the sort leaves each packet comparing at or above its successor and keeps every packet (a permutation) |
| Day13.DividerIndicesMeaning | aoc2022/day13.py:101-104 | the divider indices are, increasing, exactly the 1-based positions holding a divider |
| Day13.FindDividers | aoc2022/day13.py:101-104 | the loop computes the divider indices |
| Day13.DecoderKeyExists | aoc2022/day13.py:95-106 | once the packets load, at least two divider positions are multiplied, so the answer exists |
| Day13.DividersFound | aoc2022/day13.py:97-104 | whatever the packets, both dividers are found after the sort |
| Day13.SortKeeps | aoc2022/day13.py:99 | sorting keeps each packet of the input |
| Day13.ProductOfDefined | aoc2022/day13.py:106 | reduce(mul, ...) has a value exactly for a non-empty list |
| Day13.SolveP2 | aoc2022/day13.py:95-106 | the method computes the product of the divider positions after sorting the packets with both dividers |
| Day13.ParseJson | aoc2022/day13.py:47-51 | lists become sequences and everything else int(); ParseToJson reads back every packet |
| Day13.ToJson | aoc2022/day13.py:47-51 | the decoded JSON of a packet; ParseToJson shows ParseJson inverts it |
| Day13.Compare | aoc2022/day13.py:59-80 | positive in order, negative out of order, 0 undecided; CompareSelf and CompareFlip show it is 0 on equal packets and antisymmetric |
| Day13.CompareLists | aoc2022/day13.py:67-79 | the zip_longest loop; CompareListsFirstDifference shows the first differing pair decides |
| Day13.SortDescending | aoc2022/day13.py:99 | sort with cmp_to_key, reversed; SortDescendingMeaning shows the result is ordered and a permutation |
| Day13.Part1 | aoc2022/day13.py:83-92 | the sum of the 1-based indices of the pairs in the right order; SolveP1 is proved against it |
| Day13.Part2 | aoc2022/day13.py:95-107 | the product of the dividers' positions after sorting; DecoderKeyExists shows it exists whenever every packet parses |
| Day14.ParseLineMeaning | aoc2022/day14.py:64-66 | a path parses exactly when every " -> " piece is a coordinate pair, giving one point per piece in order |
| Day14.Paint | aoc2022/day14.py:69-78 | painting keeps the grid's shape |
| Day14.PaintAt | aoc2022/day14.py:69-78 | a painted cell holds the new symbol exactly when some point addresses it (Python negative indices included); every other cell keeps its symbol |
| Day14.PaintAppend | aoc2022/day14.py:72-78 | painting two runs of points one after the other is painting their concatenation |
| Day14.Walk | aoc2022/day14.py:76-78 | the k-th point of a walk is the start moved k steps |
| Day14.StepsReach | aoc2022/day14.py:74-77 | k unit steps towards d cover d exactly when d is zero or k is its absolute value |
| Day14.WalkReaches | aoc2022/day14.py:74-77 | the walk from one end reaches the other end, after the rectilinear distance, exactly when the ends share a row or a column |
| Day14.SegmentEnds | aoc2022/day14.py:73-78 | a segment starts at its first end and reaches its second exactly when the two are aligned |
| Day14.HorizontalSegment | aoc2022/day14.py:73-78 | a horizontal segment is exactly the cells of its row between its ends |
| Day14.VerticalSegment | aoc2022/day14.py:73-78 | a vertical segment is exactly the cells of its column between its ends |
| Day14.StepFacts | aoc2022/day14.py:74-77 | the normalised direction is a non-zero unit step and each point is the previous one plus it |
| Day14.OffGridFails | aoc2022/day14.py:75-78 | a point outside the grid's index range makes the segment fail |
| Day14.RemainingShrinks | aoc2022/day14.py:76-78 | each step brings the walk closer to leaving the grid, so the loop ends even for unaligned ends |
| Day14.ExitFacts | aoc2022/day14.py:76-78 | when the walk reaches its end, the ends are aligned and the walk is the whole segment |
| Day14.PaintStep | aoc2022/day14.py:76-78 | one more step of the walk paints one more point |
| Day14.DrawSegment | aoc2022/day14.py:73-78 | drawing a segment succeeds exactly when it is aligned and inside the grid, and then paints its points "#"; nothing else changes shape |
| Day14.Pairs | aoc2022/day14.py:73 | zip(path, path[1:]) gives each consecutive pair of points once, in order |
| Day14.DrawAll | aoc2022/day14.py:72-78 | drawing segments keeps the grid's shape |
| Day14.DrawAllPaints | aoc2022/day14.py:72-78 | drawing all segments paints exactly the points of all segments "#" |
| Day14.WallPointsMember | aoc2022/day14.py:72-78 | a point is a wall point exactly when it lies on some segment |
| Day14.Walls | aoc2022/day14.py:69-78 | the walls keep the grid's shape |
| Day14.WallsAt | aoc2022/day14.py:69-78 | after build_paths a cell is "#" when some segment covers it, otherwise "+" at the origin, otherwise unchanged |
| Day14.SegmentsStep | aoc2022/day14.py:72-73 | the segments met so far grow by the next pair |
| Day14.SegmentsNext | aoc2022/day14.py:72-73 | finishing a path appends all its pairs |
| Day14.DrawAllSnoc | aoc2022/day14.py:73-78 | drawing one more segment paints its points over the earlier drawing |
| Day14.BuildPaths | aoc2022/day14.py:69-78 | build_paths succeeds exactly when the origin and every segment fit the grid, and then leaves the walls of all paths |
| Day14.SegmentIn | aoc2022/day14.py:72-73 | every consecutive pair of every path is one of the segments |
| Day14.SegmentFails | aoc2022/day14.py:72-78 | one bad segment makes the whole drawing fail |
| Day14.SegmentsPrefix | aoc2022/day14.py:72-73 | the segments of the first paths are a prefix of all segments |
| Day14.Fall | aoc2022/day14.py:81-104 | a grain that rests stays inside the cone below the origin and above the last row |
| Day14.FallMeaning | aoc2022/day14.py:87-102 | a grain rests no higher than it started, with down, down-left and down-right all blocked, on a free cell or where it started |
| Day14.FloorCatches | aoc2022/day14.py:87-102 | a full row of "#" below the grain always stops it |
| Day14.SimulateSnowflake | aoc2022/day14.py:81-104 | the method reports a rest exactly when the grain does not reach the last row; a resting grain marks its cell "o" and a falling one changes nothing |
| Day14.RowCountUpdate | aoc2022/day14.py:101 | writing a cell changes a row's count of a symbol by the old and new symbols only |
| Day14.GridCountUpdate | aoc2022/day14.py:101 | replacing a row changes the grid's count by that row's counts only |
| Day14.CountUpdated | aoc2022/day14.py:101 | writing a cell changes the grid's count by the old and new symbols only |
| Day14.Settle | aoc2022/day14.py:101 | a resting grain keeps the grid's shape |
| Day14.RestShrinks | aoc2022/day14.py:101-102 | each resting grain uses up room, so the pouring loops are measured |
| Day14.StuckMeaning | aoc2022/day14.py:101 | the pour is stuck exactly when the grain rests on a cell that already holds sand |
| Day14.Plus | aoc2022/day14.py:121 | adding to a count that may be missing adds when present and stays missing otherwise |
| Day14.PlusOne | aoc2022/day14.py:121 | adding one then k is adding k + 1 |
| Day14.PourStep | aoc2022/day14.py:119-121 | no grain rests once one falls out; a stuck pour never ends; otherwise one more grain than after it rests |
| Day14.PourBound | aoc2022/day14.py:119-128 | no more grains rest than there is room for |
| Day14.PourIntoAbyss | aoc2022/day14.py:117-128 | the loop of solve_p1 counts the grains that rest before one falls out (the printed snowflake_count - 1) |
| Day14.LastWallRow | aoc2022/day14.py:132-135 | the last wall row is a row of the grid |
| Day14.LastWallRowMeaning | aoc2022/day14.py:132-135 | the chosen row holds a "#" (unless it is 0) and no later row does |
| Day14.WallRow | aoc2022/day14.py:137-139 | a floor row is all "#" and as wide as the grid |
| Day14.FindLastWallRow | aoc2022/day14.py:132-135 | the loop finds the last row holding a wall |
| Day14.FillRow | aoc2022/day14.py:137-139 | filling replaces that one row with walls and keeps every other row |
| Day14.WallRowStart | aoc2022/day14.py:138-139 | before the loop no cell is filled |
| Day14.WallRowStep | aoc2022/day14.py:138-139 | one write extends the filled prefix by one cell |
| Day14.BuildFloor | aoc2022/day14.py:131-139 | build_floor succeeds exactly when two rows below the last wall is inside the grid, and then that row becomes all "#" |
| Day14.HeapStep | aoc2022/day14.py:154-156 | with the origin free, a grain that falls out means the loop never ends; otherwise one more grain than after it rests |
| Day14.FloorFillsUp | aoc2022/day14.py:150-156 | with a floor inside the grid the origin is always covered, after no more grains than there is room for |
| Day14.PourUntilBlocked | aoc2022/day14.py:153-156 | the loop of solve_p2 counts the grains until the origin holds sand |
| Day14.Cave | aoc2022/day14.py:107-114 | the cave grid is 1000 by 500 |
| Day14.Part2Defined | aoc2022/day14.py:142-163 | part 2 has an answer exactly when the walls can be drawn and the floor fits in the grid |
| Day14.SolveP1 | aoc2022/day14.py:107-128 | solve_p1 gives the part 1 count |
| Day14.SolveP2 | aoc2022/day14.py:142-163 | solve_p2 gives the part 2 count |
| Day14.ParseLine | aoc2022/day14.py:64-66 | the points between " -> "; ParseLineMeaning shows it succeeds exactly when every piece parses, one point per piece in order |
| Day14.Pour | aoc2022/day14.py:116-122 | the grains that rest before one falls out; PourBound shows it is at most the free room of the grid |
| Day14.Heap | aoc2022/day14.py:152-156 | the grains until one rests on the origin; FloorFillsUp shows a full floor row always ends the run within the free room |
| Day14.Part1 | aoc2022/day14.py:107-128 | part 1's count on the drawn cave; SolveP1 is proved against it |
| Day14.Part2 | aoc2022/day14.py:142-162 | part 2's count with the floor; Part2Defined shows it exists exactly when the cave draws and its floor fits the grid |
| Day15.Centered | aoc2022/day15.py:27-29 | a centred span holds exactly the integers within the half-distance of its centre, 2d + 1 of them |
| Day15.Range | aoc2022/day15.py:66 | range(lo, hi) as a set holds exactly the integers from lo up to hi |
| Day15.RangeSize | aoc2022/day15.py:66 | range(lo, hi) holds hi - lo integers, or none |
| Day15.CoverMember | aoc2022/day15.py:24-25 | an integer is covered exactly when some span contains it |
| Day15.CoverSame | aoc2022/day15.py:33-34 | reordering the spans (any permutation, so the sort too) covers the same integers |
| Day15.CoverSnoc | aoc2022/day15.py:65-67 | one more span adds exactly its own integers |
| Day15.InsertByLo | aoc2022/day15.py:34 | inserting adds exactly the one span |
| Day15.InsertSorted | aoc2022/day15.py:34 | inserting keeps the spans ordered by their lower ends |
| Day15.SortByLo | aoc2022/day15.py:34 | sorting by lower end gives an ordered permutation of the spans |
| Day15.SweepStep | aoc2022/day15.py:37-42 | each span adds exactly its part above the highest end seen so far to the covered count |
| Day15.SweepReach | aoc2022/day15.py:37-42 | after each span, everything covered lies below the new highest end and the gap before the next span is filled |
| Day15.TotalLen | aoc2022/day15.py:31-43 | total_len fails exactly on no spans, and otherwise counts the integers covered by at least one span |
| Day15.BoundedStep | aoc2022/day15.py:51-56 | each span adds exactly its part inside the bounds above the highest end seen so far |
| Day15.BoundedReach | aoc2022/day15.py:51-56 | the sweep invariant inside the bounds is kept by each span |
| Day15.BoundedIter | aoc2022/day15.py:51-56 | one iteration of the bounded sweep updates the count and the invariant together |
| Day15.BoundedDone | aoc2022/day15.py:57-59 | stopping early, at a span reaching the upper bound, misses nothing |
| Day15.Saturated | aoc2022/day15.py:57-58 | once the spans so far fill up to the upper bound, the later spans add nothing inside the bounds |
| Day15.TotalLenBounded | aoc2022/day15.py:45-59 | total_len_bounded counts the covered integers from lo up to hi |
| Day15.FindGap | aoc2022/day15.py:61-69 | find_gap gives exactly the searched integers that no span contains |
| Day15.VertSpan | aoc2022/day15.py:78-79 | the vertical span holds exactly the rows within the sensor's distance |
| Day15.HorSpan | aoc2022/day15.py:81-85 | the row span holds the cells of the row within the sensor's distance, and the sensor's own column whatever the row |
| Day15.HorSpanNeverEmpty | aoc2022/day15.py:82-84 | the clamp makes every row span non-empty, so the Span(0, 0) branch is never taken |
| Day15.OutOfRangeColumnKept | aoc2022/day15.py:82-85 | a sensor at (0, 100) with its beacon at (0, 101) still rules out column 0 of row 10 |
| Day15.HorSpanInRange | aoc2022/day15.py:81-85 | with the clamp removed, a row span holds exactly the cells of the row within the sensor's distance |
| Day15.Create | aoc2022/day15.py:87-89 | the distance of a reading is never negative, and zero exactly when the beacon sits on the sensor |
| Day15.CreateCoversBeacon | aoc2022/day15.py:78-89 | a sensor's spans reach its own beacon |
| Day15.SkipBeaconWords | aoc2022/day15.py:95 | the beacon words hold no " y=" to remove |
| Day15.ShowIntPlain | aoc2022/day15.py:98 | a written integer holds none of the removed words or commas |
| Day15.StripSensor | aoc2022/day15.py:94 | removing "Sensor at x=" leaves the rest of the line |
| Day15.StripItems | aoc2022/day15.py:95 | removing " y=" leaves the numbers with their separators |
| Day15.CommaBeacon | aoc2022/day15.py:96 | the beacon words become one comma |
| Day15.SplitFour | aoc2022/day15.py:98 | the template splits into the four numbers |
| Day15.ParseFour | aoc2022/day15.py:98 | four integer pieces give the four integers |
| Day15.ParseShowReading | aoc2022/day15.py:92-99 | parse_line reads back the reading of any line written in the puzzle's format |
| Day15.ParsedReadings | aoc2022/day15.py:103 | one parse per line, in order |
| Day15.RowSpans | aoc2022/day15.py:106 | one clamped row span (HorSpan) per reading, in order |
| Day15.RowCoverMeaning | aoc2022/day15.py:106-108 | a cell of the row is covered exactly when some sensor reaches it or it is some sensor's own column |
| Day15.Part1Defined | aoc2022/day15.py:102-108 | part 1 has an answer exactly when there are lines and every one parses |
| Day15.SolveP1 | aoc2022/day15.py:102-108 | solve_p1's loop computes Part1: the cells of row 2000000 that some sensor reaches or that are a sensor's own column, less one |
| Day15.GapMeaning | aoc2022/day15.py:123-125 | a column is in the gap exactly when it is searched, out of every sensor's range, and no sensor's own column |
| Day15.SolveP2 | aoc2022/day15.py:111-128 | solve_p2 fails exactly when some line fails to parse or the gap is empty, and otherwise gives x * 4,000,000 + y for a column x of the (clamped) gap |
| Day15.ParseLine | aoc2022/day15.py:92-99 | the words stripped and four integers read; ParseShowReading reads back every line in the puzzle's format |
| Day15.Part1 | aoc2022/day15.py:102-108 | the number of cells of row 2000000 under the clamped spans, less one; RowCoverMeaning says which cells those are and Part1Defined when it exists |
| Day15.Gap | aoc2022/day15.py:122-124 | the searched columns outside every clamped span; GapMeaning says which columns those are |
| Day15.RowSpansInRange | aoc2022/day15.py:106 | one corrected row span (HorSpanInRange) per reading, in order |
| Day15.RowCoverInRangeMeaning | aoc2022/day15.py:106-108 | with the corrected spans, a cell of the row is covered exactly when some sensor reaches it |
| Day15.InRangeCoverIncluded | aoc2022/day15.py:82-85 | the corrected spans cover only cells the clamped spans cover |
| Day15.Part1InRange | aoc2022/day15.py:102-108 | the count with the corrected spans; Part1InRangeAtMost relates it to the source's count |
| Day15.Part1InRangeAtMost | aoc2022/day15.py:102-108 | the corrected count exists exactly when the source's does, and is never larger |
| Day15.GapInRange | aoc2022/day15.py:122-124 | the searched columns outside every corrected span; GapInRangeMeaning says which columns those are |
| Day15.GapInRangeMeaning | aoc2022/day15.py:122-124 | a column is in the corrected gap exactly when it is searched and no sensor reaches it |
| Day15.GapIncluded | aoc2022/day15.py:82-85 | every column of the source's gap is in the corrected gap |
| Day16.NameIdsMeaning | aoc2022/day16.py:53-55 | a name is a key exactly when some valve has it, and it maps to the id of the last valve with that name |
| Day16.LookupAgrees | aoc2022/day16.py:46-51 | looking a valve up by its position gives that valve, and by its name gives a valve of that name |
| Day16.LookupByNameUnique | aoc2022/day16.py:46-55 | with distinct names, looking a valve up by name gives that very valve |
| Day16.NamedValve | aoc2022/day16.py:46-55 | a name that resolves gives a valve of that name, with an id in range that resolves to the same valve |
| Day16.ParseValve | aoc2022/day16.py:29-38 | a parsed valve carries the id it was given |
| Day16.NumberTextOf | aoc2022/day16.py:38 | a written integer is digits and a minus sign only |
| Day16.TunnelTextOf | aoc2022/day16.py:33-36 | a tunnel list written with ", " is names, commas and blanks, starting with a name |
| Day16.NameAvoids | aoc2022/day16.py:31-36 | a valve name holds no character but capital letters |
| Day16.NumberAvoids | aoc2022/day16.py:31-36 | a written flow rate holds no character but digits and a minus sign |
| Day16.TunnelAvoids | aoc2022/day16.py:31-36 | a tunnel list holds no character but capitals, commas and blanks |
| Day16.StageValve | aoc2022/day16.py:31 | removing "Valve " strips only the leading word |
| Day16.StageRate | aoc2022/day16.py:32 | " has flow rate=" becomes the first comma |
| Day16.SkipFields | aoc2022/day16.py:33-36 | a rewrite that cannot match the name or the rate leaves them alone |
| Day16.PluralWording | aoc2022/day16.py:33 | the plural wording becomes a comma followed by the leftover "s " |
| Day16.SingularNotPlural | aoc2022/day16.py:33 | the plural rewrite leaves the singular wording alone |
| Day16.SingularWording | aoc2022/day16.py:34 | the singular wording becomes a comma followed by a blank |
| Day16.StageWordingPlural | aoc2022/day16.py:33-34 | the two wording rewrites leave a plural line with a comma before the tunnels |
| Day16.StageWordingSingular | aoc2022/day16.py:33-34 | the two wording rewrites leave a singular line with a comma before the tunnels |
| Day16.StageDropPlural | aoc2022/day16.py:35 | removing "s " leaves the plural line as name, rate and tunnels |
| Day16.StageDropSingular | aoc2022/day16.py:35 | removing "s " leaves the singular line alone |
| Day16.CommasFront | aoc2022/day16.py:36 | the ", " rewrite leaves the name and the rate alone |
| Day16.CommasJoin | aoc2022/day16.py:36 | names joined with ", " become names joined with "," |
| Day16.CommasPlural | aoc2022/day16.py:36 | the ", " rewrite passes the plural field comma |
| Day16.CommasSingular | aoc2022/day16.py:36 | the ", " rewrite turns the singular comma and blank into one comma |
| Day16.NormalizeShown | aoc2022/day16.py:31-36 | the rewrites turn a puzzle line into name, flow rate and tunnels separated by commas |
| Day16.SplitFields | aoc2022/day16.py:37 | the rewritten line splits into the name, the rate and each tunnel |
| Day16.SplitRateAndTunnels | aoc2022/day16.py:37 | the rate and the tunnels after it split into their fields |
| Day16.ParseShowValve | aoc2022/day16.py:29-38 | parse reads back every valve written in the puzzle's format |
| Day16.ParsedLines | aoc2022/day16.py:281 | each line is parsed with its position as its id |
| Day16.ParseCave | aoc2022/day16.py:281 | the cave exists exactly when every line parses, and it is well formed with one valve per line |
| Day16.ShowLines | aoc2022/day16.py:281 | one puzzle line per valve |
| Day16.ParseShowCave | aoc2022/day16.py:41-55 | parsing the lines of numbered valves rebuilds the cave Cave.create makes of them |
| Day16.PickId | aoc2022/day16.py:215 | a nonempty set of ids yields one of its members |
| Day16.OpenFlowRemove | aoc2022/day16.py:215 | the total flow of a set is any member's flow plus the rest's, whatever the order |
| Day16.OpenFlowAdd | aoc2022/day16.py:99-101 | opening one more valve adds exactly its flow to the total |
| Day16.OpenValveEffect | aoc2022/day16.py:99-103 | opening a closed valve opens it and adds its flow, changing nothing else; opening an open one changes nothing |
| Day16.MoveEffect | aoc2022/day16.py:104-107 | a move succeeds exactly from a valve, to a valve, along one of its tunnels, and changes only the location |
| Day16.ActKeepsFlow | aoc2022/day16.py:95-107 | every action keeps flow_rate equal to the total flow of the open valves |
| Day16.TickEffect | aoc2022/day16.py:109-112 | a minute adds the flow to the pressure relieved, takes one off the time, changes nothing else, and reports whether time is left |
| Day16.InitialFlow | aoc2022/day16.py:114-116 | a fresh simulation has 30 minutes, nothing open, and a flow matching that |
| Day16.Simulation.constructor | aoc2022/day16.py:77-84 | the new simulation holds the cave and the given state |
| Day16.Simulation.IsOpen | aoc2022/day16.py:92-93 | is_open answers exactly for the keys that name a valve, and then tells whether its id is open |
| Day16.Simulation.ExecuteAction | aoc2022/day16.py:95-107 | execute_action succeeds exactly when the action is allowed, then moves to its new state; a raising action changes nothing; the flow invariant is kept |
| Day16.Simulation.PassTime | aoc2022/day16.py:109-112 | pass_time moves to the next minute's state and reports whether time is left, keeping the flow invariant |
| Day16.OfCave | aoc2022/day16.py:114-116 | of_cave fails exactly without a valve "AA", and otherwise starts fresh at "AA" |
| Day16.DumbStrategy | aoc2022/day16.py:119-127 | the loop picks the action of the dumb strategy |
| Day16.FirstClosedAlongTunnel | aoc2022/day16.py:122-127 | when every tunnel names a valve, the strategy moves to a valve at the end of one of the tunnels |
| Day16.DumbSucceeds | aoc2022/day16.py:119-127 | in a connected cave the dumb strategy always picks an action that execute_action accepts and that stays in the cave |
| Day16.Simulate | aoc2022/day16.py:185-193 | simulate gives the pressure relieved when the loop stops |
| Day16.RunFromSucceeds | aoc2022/day16.py:186-193 | in a connected cave the loop runs until no time is left without raising, keeping the flow invariant |
| Day16.SimulateSucceeds | aoc2022/day16.py:185-193 | in a connected cave with a valve "AA" the simulation always finishes its 30 minutes |
| Day16.Ancestry | aoc2022/day16.py:203-210 | a node's history is non-empty and ends with the node |
| Day16.History | aoc2022/day16.py:203-210 | the loop collects the nodes from the root down to the node |
| Day16.AncestryShape | aoc2022/day16.py:203-210 | the history starts at a root and each node's parent is the one before it |
| Day16.MakeChild | aoc2022/day16.py:218-232 | a child is one minute later than its parent, has it as parent, and visits and opens at least as much |
| Day16.MakeChildEffect | aoc2022/day16.py:225-230 | opening adds the location to the opened set and stays; moving goes to the target and visits it |
| Day16.ChildHistory | aoc2022/day16.py:203-232 | a child's history is its parent's followed by the child |
| Day16.DescendGrows | aoc2022/day16.py:218-232 | after a run of actions, time drops by one per action, nothing is unvisited or closed again, and the history grows by one per action |
| Day16.SumFlows | aoc2022/day16.py:215 | the sum fails exactly when an opened id is not a valve, and otherwise is the total flow of the opened valves |
| Day16.Relieved | aoc2022/day16.py:212-216 | relieved adds up the opened valves' flows over the whole history |
| Day16.ReliefPrefixFails | aoc2022/day16.py:213-216 | a failure in part of the history fails the whole sum |
| Day16.ChildRelief | aoc2022/day16.py:212-232 | a child's relief is its parent's plus the flow of the child's opened valves |
| Day16.Create | aoc2022/day16.py:53-55 | the cave of the valves; ParseShowCave shows that parsing the puzzle lines of well-named valves, each with a tunnel, gives it |
| Day16.Act | aoc2022/day16.py:95-107 | one action; MoveEffect shows a move succeeds exactly along a tunnel and changes only the location, and ActKeepsFlow that the flow rate keeps matching the open valves |
| Day16.Tick | aoc2022/day16.py:109-112 | pass_time; TickEffect shows the flow is added, a minute passes, nothing else changes, and time is left while more than one minute was |
| Day16.Dumb | aoc2022/day16.py:119-126 | dumb_strategy; DumbSucceeds shows it always picks an action that succeeds in a connected cave |
| Day16.RunFrom | aoc2022/day16.py:187-191 | the simulate loop; RunFromSucceeds shows it ends with no time left and the flow still matching the open valves |
| Day16.SimulateResult | aoc2022/day16.py:185-193 | simulate with dumb_strategy; SimulateSucceeds shows it always gives an answer for a connected cave |
| Text.RStrip | aoc2022/util.py:8 | str.rstrip removes exactly the trailing whitespace: the result is a prefix ending in a non-blank, and everything cut is blank |
| Text.LStrip | aoc2022/day11.py:81 | the leading half of str.strip removes exactly the leading whitespace |
| Text.Split | aoc2022/coords.py:36 | str.split on one character gives at least one field, none holding the separator |
| Text.JoinSplit | aoc2022/coords.py:36 | joining the fields of a split with the separator gives back the text |
| Text.SplitJoin | aoc2022/coords.py:36 | splitting fields joined by a separator they do not hold gives back the fields |
| Text.JoinSplitText | aoc2022/day14.py:65 | splitting on a longer separator is undone by joining with it |
| Text.ParseShowInt | aoc2022/coords.py:37 | int() reads back every integer as str writes it |
| Text.ParseInts | aoc2022/day15.py:98 | list(map(int, parts)) succeeds exactly when every part is an integer, giving them in order |
| Text.ReplaceHit | aoc2022/day15.py:94 | str.replace rewrites an occurrence at the front |
| Text.ReplaceAbsent | aoc2022/day15.py:94-96 | str.replace leaves text without the pattern alone |
| Text.ReplaceJoinText | aoc2022/day16.py:36 | replacing a multi-character separator by one character turns one join into the other |
| Text.ParseInt | aoc2022/coords.py:37 | int(): blanks, an optional sign and one or more ASCII digits, else an error; ParseShowInt reads back every written integer |
| Text.Strip | aoc2022/day11.py:118 | str.strip() of whitespace at both ends; StripPadded removes any added blanks from text that neither starts nor ends with one |
| Text.Replace | aoc2022/day15.py:93-96 | str.replace from the left without overlaps; ReplaceHit and ReplaceNoHit say what it does at an occurrence and past text without one |
| Seqs.PyIndex | aoc2022/grid.py:19-25 | a Python list index is valid exactly from -n up to n, and then names the element it or n past it |
| Seqs.LargestIsMaximum | aoc2022/day8.py:70 | the largest element is an element and no element exceeds it |
| Ints.DivModMeaning | aoc2022/day11.py:153 | Python's // and % give a quotient and a remainder that rebuild the dividend, the remainder taking the divisor's sign |
| Ints.DivModPositive | aoc2022/day11.py:158 | for a positive divisor Python's // and % agree with the Euclidean ones |
| Ints.ReduceCongruent | aoc2022/day11.py:217 | reducing by a modulus keeps the remainder modulo it |
| Ints.CongruentAdd | aoc2022/day11.py:200-217 | sums of congruent numbers are congruent |
| Ints.CongruentMul | aoc2022/day11.py:200-217 | products of congruent numbers are congruent |
| Ints.CongruentDivisor | aoc2022/day11.py:207-217 | numbers congruent modulo a multiple are congruent modulo each factor |
| Wrappers.AllSome | aoc2022/day15.py:98 | a list of results succeeds exactly when every entry does, keeping them in order |

## Left out

- `gif.py` and every drawing routine are not modelled, because they only produce images:
  - `draw_stacks`, `draw_state`, `initialize_marker_gif`, `draw_grid`;
  - `draw_final_positions`, `output_map`, `draw_display`;
  - `Grid.img_draw`, `draw_grid_visibility` and the colour maps;
  - `solve_image` and `draw_cave`.

  In `update_display` the model keeps only the cell write.
- `Input`, `Output`, `advent.py`, `template.py` and every `main` function are left out, because they only handle files and the day number. `clean_lines` reads a file; its `rstrip` is `Text.RStrip`.
- Answers are returned instead of printed. The debug and log output is left out:
  - `dbg`, `inf` and `smr` in day 11;
  - `action_str` and the two prints in `execute_action` of day 16;
  - progress prints in several days.
- `sys.set_int_max_str_digits` is left out: integers are unbounded here.
- Text.ParseInt: `int()` is modelled for ASCII digits with an optional sign and surrounding blanks. Underscores and non-ASCII digits are not modelled. `Text.IsSpace` is ASCII-only, so the blanks that `int()` and `str.strip()` skip here leave out what Python also takes as whitespace: `\x1c` to `\x1f`, `\x85`, `\xa0` and the other Unicode spaces.
- Grids.Grid and Util.Grid: `__repr__` is left out (text output only).
- Grids.Grid.Set: `grid[x, y]` indexes Python lists, which also accept negative indices; `Get` and `Set` here require a cell inside the grid, and the callers that can pass a negative index (day 14's walls and sand) normalise it through `Seqs.PyIndex` first.
- Day12.MinStartLength: the igraph shortest-path searches of day 12 are foreign library calls. This covers the edge list, start and end finding, and part 1. Their paths are an input to part 2. `min_len` starts from `len(paths[0])` as in the source.
- Day12.AllReachableNeighbors: `grid.py` defines no `enumerate_neighbors`, so the model takes it as a parameter that must list the in-grid cells around a cell, in any order.
- Day13.ParseJson: `json.loads` is a parameter returning a decoded value. JSON floats are not modelled; strings and objects are decoded values (`JText`, `JObject`), and `int()` of a string is read by `Text.ParseInt`.
- Day13.SortDescendingMeaning: `packets.sort` with `cmp_to_key` is modelled as a stable insertion sort. It agrees with Python's sort only when `compare` is a total preorder, which is not proved.
- Day5.Execute: a failed `pop` leaves the source's stacks partly moved before the exception ends the run. The model reports the failure and leaves the stacks unchanged.
- Day11.Throw: a monkey whose target is itself is a failure here. The source appends the item to the list its `for` loop is walking, so the monkey inspects the item again in the same turn, and forever if it keeps it every time. No puzzle monkey targets itself.
- Day11.ThrowAll: fails when a monkey targets itself, as Day11.Throw does, where the source re-inspects the item.
- Day11.Turn: fails when a monkey targets itself, as Day11.Throw does, where the source re-inspects the item.
- Day11.RoundFrom: fails when a monkey targets itself, as Day11.Throw does, where the source re-inspects the item.
- Day11.Round: fails when a monkey targets itself, as Day11.Throw does, where the source re-inspects the item.
- Day11.Rounds: fails when a monkey targets itself, as Day11.Throw does, where the source re-inspects the item.
- Day11.MonkeyTurn: fails when a monkey targets itself, as Day11.Throw does, where the source re-inspects the item.
- Day11.PlayRound: fails when a monkey targets itself, as Day11.Throw does, where the source re-inspects the item.
- Day11.PlayRounds: fails when a monkey targets itself, as Day11.Throw does, where the source re-inspects the item.
- Day11.SolveP1: gives no answer when a monkey targets itself, where the source re-inspects the item.
- Day11.SolveP2: gives no answer when a monkey targets itself, where the source re-inspects the item.
- Day10.SolveP2: the samples that `solve_p2` collects but never reads are not kept.
- Day14.DrawSegment: the grid after a failing write (an `IndexError`) is not specified, because the exception ends the run.
- Day14.PourIntoAbyss and Day14.PourUntilBlocked: where the source's loop would never end, the model returns `None`. This is a grain resting on the origin a second time in part 1, or a grain falling out in part 2.
- Day15.SolveP2: the element `list(find_gap(...))[0]` returns depends on CPython's set order. The model promises some element of the gap. The commented-out row search is left out. The hard-coded row 3411840 and the bound 4,000,000 are kept.
- Day15.SolveP1 and Day15.SolveP2 compute the source's answers with the clamped row span. The corrected counts (`Part1InRange`, `GapInRange`) are separate members; see Findings.
- Day16.ParseShowValve: the round trip is proved for valves with at least one tunnel, as in every puzzle line.
- `tree_of_all_possible_moves` of day 16, with `find_children` and `functools.cache`, is left out. It relies on global counters over an exponential search. Only `make_child`, `history` and `relieved` are modelled.
- `SmarterStrategy` of day 16 is left out. It is a heuristic with no stated result.
- `solve_p1` and `solve_p2` of day 16 are modelled only up to the parsed cave. They print `len(lines)` and the sum of the line lengths, which are not puzzle answers.
- `@cache` on `make_child` is left out; the model has no memoisation.

## Findings

| source | as written | input that shows it | evidently intended | confidence | as-written member | corrected member |
|---|---|---|---|---|---|---|
| aoc2022/day6.py:30 | `range(len(line))` stops before `i == len(line)`, so the window ending at the last character is never examined | `"abcd"` with chunk size 4 has a marker at 4, yet the search gives -1 | `range(len(line) + 1)` | not executed | Day6.FinalWindowMissed | Day6.GetMessageStartInclusive |
| aoc2022/day15.py:82-84 | `max(0, ...)` clamps the half-width, so the `hor_dist < 0` branch never runs. A sensor out of range of the row still rules out its own column. | sensor (0, 100) with beacon (0, 101): row 10 still has column 0 ruled out | half-width `distance - abs(sensor.y - y)`, with `Span(0, 0)` when it is negative | not executed | Day15.OutOfRangeColumnKept | Day15.HorSpanInRange |
