# Advent of Code 2022, eight solutions, modelled and proved in Dafny

This project models eight of the Python solutions in the Advent of Code 2022
repository. Each solution is a small, deterministic computation on the
puzzle input, and each gets one Dafny module. The input arrives already read
and split into lines or tokens.

- **Regolith Reservoir** (day 14, `Sand`, `sand.dfy`). Rock paths are drawn
  into a character grid and a floor is laid two rows below the lowest rock.
  Grains of sand are then poured from column 500. Each grain falls down, else
  down-left, else down-right, until it rests. A grain resumes from the
  previous grain's path instead of restarting at the source. The grid is an
  `array2`, the path a stack, and the pouring loop is proved against the
  restart-from-the-source reading of the puzzle.
- **Distress Signal** (day 13, `Packets`, `packets.dfy`). The recursive
  three-way comparison of nested packets, the part-one pair sum, and the
  part-two sort with its divider packets.
- **Supply Stacks** (day 05, `Crates`, `crates.dfy`). Reading the crate
  drawing, move parsing, the one-crate-at-a-time 9000 crane, the block-moving
  9001 crane, and the top-crate messages.
- **No Space Left On Device** (day 07, `FileTree`, `filetree.dfy`). The
  `DTree` directory class, replaying a terminal session into it, directory
  sizes, the pre-order walk, and both answers. The session is also read
  without objects, as a record of directories by path (`Run`), and the
  replayed tree is proved to mirror that record, so both answers are
  stated over it.
- **Treetop Tree House** (day 08, `Treetop`, `treetop.dfy`). Visibility
  from outside the grid, viewing distances, scenic scores, and the counting
  and maximum loops.
- **Rock Paper Scissors** (day 02, `RockPaperScissors`,
  `rock_paper_scissors.dfy`). Score and outcome tables, the shape that
  reaches a wanted outcome, and both readings of the strategy guide.
- **Hill Climbing Algorithm** (day 12, `HillClimbing`, `hill_climbing.dfy`).
  Reading the height map, building the 4-neighbour graph, and the Dijkstra
  search backwards from `E`. Every distance is proved to be the fewest
  allowed steps.
- **Calorie Counting, part two** (day 01, `Calories`, `calories.dfy`).
  Grouping the inventory lines into `Elf` objects, and the sum of the three
  largest totals.

`Wrappers` (`wrappers.dfy`) holds the `Option` type, `Max` and `Min`, and
`IsSpace`, the blanks that `str.strip` and `str.split` skip.

Where a Python operation raises (a missing dictionary key, an index out of
range, `int()` on a non-number, `min` of nothing), the model either requires
the input that avoids it or returns `None`. Each such choice is listed below.

## Model

| member | source | states |
|---|---|---|
| Sand.TranslateX | python/day_14/solution.py:185-187 | The source column 500, and only it, lands on the middle grid column, and columns left of 500 land left of the middle. |
| Sand.PuzzleX | python/day_14/solution.py:185-187 | The inverse shift: translating the puzzle column it returns gives the grid column back. |
| Sand.OnFirstRunsSpec | python/day_14/solution.py:201-209 | The cells drawn by the first n waypoint pairs of a path are exactly those on one of the n runs. |
| Sand.OnFirstPathsSpec | python/day_14/solution.py:199-209 | The cells drawn by the first n paths are exactly those on one of those paths. |
| Sand.PathBottomBounds | python/day_14/solution.py:211-213 | The running maximum row of one path is at least its start value, bounds every drawn cell, and is reached by a drawn cell unless it stayed at the start value. |
| Sand.PathsBottomBounds | python/day_14/solution.py:198-213 | The same bounds over all paths. |
| Sand.LowestRock | python/day_14/solution.py:198-213 | The abyss line as intended: at least 0, no rock cell below it, and reached by a rock cell unless it is 0. |
| Sand.RunBottomAsWritten | python/day_14/solution.py:202-213 | The written tracking over one waypoint pair never lowers the line, records the pair's end row whenever the pair moves, and on a vertical pair that moves skips the starting row: it gives the larger of the old line, the end row and the row one step from the start. |
| Sand.PathBottomAsWritten | python/day_14/solution.py:200-213 | Over one path, the written line never drops below its start value and is at least the row of every waypoint reached by a move. |
| Sand.LowestRockAsWritten | python/day_14/solution.py:198-213 | Over all paths, the written abyss line is at least its start value and the row of every waypoint reached by a move. |
| Sand.AbyssAsWrittenMissesFirstCell | python/day_14/solution.py:211-213 | For the path `500,9 -> 500,5`, the source's abyss tracking gives 8, although cell (500,9) is rock and the lowest rock row is 9. |
| Sand.DrawRun | python/day_14/solution.py:202-213 | Drawing one waypoint pair sets to rock exactly the cells of its run, x first and then y, both ends included. Every other cell keeps its tile. The abyss line becomes the maximum of the old line and both ends' rows. |
| Sand.DrawPath | python/day_14/solution.py:200-213 | Drawing one path sets to rock exactly the cells on the path and leaves the rest. The returned line is the path's running maximum row. |
| Sand.DrawRocks | python/day_14/solution.py:197-213 | After all paths are drawn, a cell is rock exactly when some path covers it, else it keeps its old tile. The returned row is LowestRock. |
| Sand.DrawFloor | python/day_14/solution.py:216-217 | Every cell of the floor row becomes rock and nothing else changes. |
| Sand.Step | python/day_14/solution.py:232-246 | One move of a grain goes down, else down-left, else down-right, into air only, one row lower and inside the cone under the source. None means the grain rests. |
| Sand.Descend | python/day_14/solution.py:227-246 | A grain started at p rests in the cone (so above the floor) at a cell where Step gives None. The cell is air, unless the grain never moved. |
| Sand.Settle | python/day_14/solution.py:225-255 | The restart reading: the resting cells of successive grains, ending with the grain that rests on the source. |
| Sand.SettleUnfold | python/day_14/solution.py:248-255 | Each grain rests where Descend from the source says. The run stops when that cell is the source, else it goes on with the grain added. |
| Sand.TrajectoryExtend | python/day_14/solution.py:230-246 | Pushing the move the rule makes from the top keeps the path a legal trajectory. |
| Sand.ResumeEqualsRestart | python/day_14/solution.py:223-230 | Resuming a grain from the top of any trajectory prefix gives the same resting cell as starting it at the source. |
| Sand.StepIgnoresOtherRows | python/day_14/solution.py:249 | A grain resting at r changes only the moves made from the row just above r. |
| Sand.TrajectoryAfterRest | python/day_14/solution.py:249-251 | Popping the resting cell leaves a legal trajectory of the cave that now holds that grain, so the next grain may resume from it. |
| Sand.TrajectoryAdvance | python/day_14/solution.py:233-244 | The grid move (the first air cell among down, down-left, down-right) is the rule's move, so the trajectory grows by it. |
| Sand.TrajectoryBlocked | python/day_14/solution.py:245-246 | When all three cells below the top are blocked on the grid, the top is where a grain from the source rests. |
| Sand.Overflowed | python/day_14/solution.py:228 | True exactly when some grain rests below the abyss line. |
| Sand.PreOverflowCount | python/day_14/solution.py:228-229 | The intended first answer. It counts the grains before the first one below the abyss line: all earlier ones are at or above it, and it is 0 when no grain goes below. |
| Sand.Part1AsWritten | python/day_14/solution.py:225-229 | The first answer with the `part1 == 0` sentinel: when not 0, it counts the grains before some grain that rests below the abyss line, and it is 0 when no grain goes below. |
| Sand.Part1AsWrittenSkipsFirst | python/day_14/solution.py:219-229 | As written, the count is taken over the grains after the first one, because `part1 == 0` also means "not set yet". |
| Sand.Part1AsWrittenDiffers | python/day_14/solution.py:228-229 | The written first answer differs from the intended one exactly when the first grain already passes the abyss line and a later grain does too. |
| Sand.PlaceGrain | python/day_14/solution.py:249 | Writing `o` at the resting cell makes the grid show the cave with one more grain. |
| Sand.NextGrain | python/day_14/solution.py:248-255 | The resting cell is the next element of Settle, and the last one exactly when it is the source. |
| Sand.Fall | python/day_14/solution.py:226-246 | The inner loop returns a legal trajectory ending at the cell where a grain from the source rests. It sets the first answer once, at the first grain seen below the abyss line, by a separate flag rather than the `part1 == 0` sentinel (the corrected reading, see Findings). |
| Sand.Pour | python/day_14/solution.py:220-255 | The pouring loop: the grid ends as the cave plus exactly the Settle grains, the rest count is their number, and the first answer is the corrected PreOverflowCount of them. |
| Sand.CaveOf | python/day_14/solution.py:194-222 | The cave the paths describe: the source in the middle column, the floor two rows below LowestRock, and rock exactly on drawn cells. |
| Sand.Solve | python/day_14/solution.py:190-255 | The whole program, corrected: part 2 is the number of Settle grains of the drawn cave, and part 1 is their PreOverflowCount against the lowest rock row. |
| Sand.SentinelGrains | python/day_14/solution.py:228-229 | In a small cave whose first two grains both slide past the abyss line, the intended first answer is 0 and the written one is 1. |
| Sand.SentinelCave | python/day_14/solution.py:199-217 | The path `500,1 -> 501,1` in a 9-wide grid gives that cave. |
| Sand.Part1SentinelExample | python/day_14/solution.py:228-229 | For the path `500,1 -> 501,1`, the first answer is 0 as intended and 1 as written. |
| Packets.BasicCompare | python/day_13/solution.py:173-178 | 1 exactly when a < b, -1 exactly when a > b, 0 exactly when they are equal (the puzzle's inverted convention). |
| Packets.Compare | python/day_13/solution.py:187-212 | Comparing two elements always gives -1, 0 or 1. |
| Packets.InOrder | python/day_13/solution.py:181-220 | Comparing two lists always gives -1, 0 or 1. |
| Packets.CompareReflexive | python/day_13/solution.py:187-212 | Every value compares level with itself. |
| Packets.InOrderReflexive | python/day_13/solution.py:181-220 | `in_order(p, p) == 0` for every packet. |
| Packets.CompareAntisymmetric | python/day_13/solution.py:187-212 | Swapping two values negates their comparison. |
| Packets.InOrderAntisymmetric | python/day_13/solution.py:181-220 | `in_order(a, b) == -in_order(b, a)`. |
| Packets.PrefixRule | python/day_13/solution.py:214-220 | When no element pair decides, the result is 1 if and only if the left list is shorter, -1 if and only if it is longer, and 0 if and only if the lengths are equal. |
| Packets.FirstDifferenceDecides | python/day_13/solution.py:185-212 | The first element pair that is not level decides the lists. |
| Packets.IntAsSingleton | python/day_13/solution.py:194-206 | An integer compares, on either side, exactly like the one-element list holding it. |
| Packets.OrderedPairSumBounds | python/day_13/solution.py:232-240 | The pair sum lies between 0 and the sum of all pair numbers. It equals the top exactly when every pair is in order. |
| Packets.SumOfOrderedPairs | python/day_13/solution.py:231-240 | The driver loop returns the sum of the 1-based numbers of the pairs with `in_order >= 0`. |
| Packets.ExampleDeepPair | python/day_13/solution.py:102-115 | The eighth example pair is decided by 7 against 0 five levels down: not in order. |
| Packets.ExampleVerdicts | python/day_13/solution.py:15-37 | The verdicts on the eight example pairs. |
| Packets.Part1Example | python/day_13/solution.py:119 | Pairs 1, 2, 4 and 6 of the example are in order, so part 1 gives 13. |
| Packets.Insert | python/day_13/solution.py:253 | Inserting into an ordered list keeps it ordered and adds exactly the one packet. The packet goes before the first packet it strictly precedes, so it stays behind packets level with it. |
| Packets.Sort | python/day_13/solution.py:253 | The sorted list is a permutation of the input, and every adjacent pair is in order (`in_order >= 0`). |
| Packets.SortKeeps | python/day_13/solution.py:253 | No packet is lost by sorting. |
| Packets.IndexOf | python/day_13/solution.py:255-256 | `list.index`: defined exactly when the packet is present, and then it is its first position. |
| Packets.DividerPositions | python/day_13/solution.py:250-256 | After the dividers `[[2]]` and `[[6]]` are appended and the list sorted, the two returned 1-based positions are where each divider first occurs, and they differ. |
| Packets.FirstOccurrence | python/day_13/solution.py:255-256 | A value has only one first occurrence: any index holding it with no copy before is that position. |
| Packets.FirstPositionsProduct | python/day_13/solution.py:255-257 | The product of the two first positions is the product of any indices (plus one) at which the dividers first occur. |
| Packets.DecoderKey | python/day_13/solution.py:255-257 | The key is (i + 1) * (j + 1), where i and j are the indices of the first `[[2]]` and the first `[[6]]` in the sorted list with the dividers. |
| Crates.TrimStartSpec | python/day_05/solution.py:141 | The front trim removes a blank prefix and stops at the first non-blank character. |
| Crates.TrimEndSpec | python/day_05/solution.py:141 | The back trim removes a blank suffix and stops at the last non-blank character. |
| Crates.StripSpec | python/day_05/solution.py:141 | `str.strip` returns a slice that neither starts nor ends with a blank, and everything cut off is blank. |
| Crates.StripPadded | python/day_05/solution.py:141 | A word padded on the right with blanks strips back to the word. |
| Crates.ColumnUp | python/day_05/solution.py:132-140 | One character per row, read from the last row up: position k holds row `len - 1 - k`. |
| Crates.ColumnUpAt | python/day_05/solution.py:132-140 | Position k of the column comes from row `len - 1 - k`. |
| Crates.StackCountBounds | python/day_05/solution.py:137 | Column 1 + 4n is read exactly when it lies inside the eighth line, which is the first line once the eight lines are reversed. |
| Crates.LoadCrates | python/day_05/solution.py:130-144 | One stack per column 1, 5, 9, …; stack i is column 1 + 4i of the first eight lines, bottom to top, blanks stripped. |
| Crates.ReadColumn | python/day_05/solution.py:138-140 | The inner loop gathers column c, bottom line first. |
| Crates.ExampleDrawingStacks | python/day_05/solution.py:16-29 | The example drawing, padded on top with blank lines to the eight lines the loader reads, holds stacks ZN, MCD and P. |
| Crates.ParseMoveLegal | python/day_05/solution.py:147-153 | A parsed move names two existing stacks exactly when both 1-based stack numbers lie between 1 and the number of stacks (otherwise the source raises KeyError); the line's numbers can be read back from the instruction. |
| Crates.SlicesSplit | python/day_05/solution.py:181-187 | `s[:-k] + s[-k:] == s`. For 1 <= k <= len, exactly k crates are taken. For k == 0, `s[-0:]` is the whole stack. |
| Crates.Crane9001 | python/day_05/solution.py:173-190 | `move_part2` on a copy: as many stacks as before, every other stack unchanged, and nothing changes when source and destination coincide. |
| Crates.Crane9001Effect | python/day_05/solution.py:181-188 | Between two stacks, the block lands on the destination in its original order and the source keeps the rest. The crate total is preserved. |
| Crates.Crane9001ZeroTakesAll | python/day_05/solution.py:181-187 | A quantity of 0 moves the whole source stack, because of `s[-0:]`. |
| Crates.Move9000 | python/day_05/solution.py:156-167 | `move`, one crate per turn, equals the specification Crane9000. |
| Crates.LiftedStep | python/day_05/solution.py:161-165 | One lift takes the next crate off the source and puts it on the destination. |
| Crates.Crane9000Effect | python/day_05/solution.py:156-167 | The source keeps what the 9001 leaves, the destination receives the 9001's block reversed, every other stack is unchanged, and the crate total is preserved. |
| Crates.SingleCrateSame | python/day_05/solution.py:156-188 | With quantity 1, both cranes give identical stacks. |
| Crates.Rearrange9000Total | python/day_05/solution.py:202-203 | Running all moves with the 9000 keeps the number of stacks and of crates. |
| Crates.Rearrange9001Total | python/day_05/solution.py:211-212 | Running all moves with the 9001 keeps the number of stacks and of crates. |
| Crates.ReadTops | python/day_05/solution.py:204-205 | The message has one character per stack: that stack's top crate. |
| Crates.Part1 | python/day_05/solution.py:200-206 | Part 1 is the tops after running every move with the 9000. |
| Crates.Part2 | python/day_05/solution.py:208-215 | Part 2 is the tops after running every move with the 9001. |
| Crates.Example9000 | python/day_05/solution.py:16-24 | The example moves with the 9000 end with C, M and PDNZ. |
| Crates.Example9001 | python/day_05/solution.py:16-24 | The example moves with the 9001 end with M, C and PZND. |
| Crates.ExampleMessages | python/day_05/solution.py:66-117 | From the example stacks ZN, MCD and P, the moves give the messages CMZ and MCD. |
| FileTree.DTree.constructor | python/day_07/solution.py:124-128 | A new directory has the given name and parent, and no children or files. |
| FileTree.DTree.Touch | python/day_07/solution.py:130-132 | `files[name]` is set to the size, overwriting an earlier entry. The children are unchanged. |
| FileTree.DTree.Mkdir | python/day_07/solution.py:134-136 | An existing child is returned and kept. Otherwise a fresh empty child with this directory as parent is added under that name. |
| FileTree.Root | python/day_07/solution.py:138-141 | The directory reached by `parent` links has no parent, and the start lies below it (or is it). |
| FileTree.ComputeSize | python/day_07/solution.py:143-148 | `size`, files first and then each child, equals Size: the files' sizes plus the children's sizes. |
| FileTree.SizeNonNegative | python/day_07/solution.py:143-148 | With no negative file size, every size is at least 0. |
| FileTree.SizeAtLeastChild | python/day_07/solution.py:143-148 | A directory is at least as large as any of its children. |
| FileTree.SizeAtLeastBelow | python/day_07/solution.py:143-148 | A directory is at least as large as any directory below it. |
| FileTree.EveryDirectoryBelowRoot | python/day_07/solution.py:138-141 | In a tree, every directory is the root or lies below it. |
| FileTree.SumOverRemove | python/day_07/solution.py:146-147 | A sum over dictionary values does not depend on the order the keys are taken. |
| FileTree.Walk | python/day_07/solution.py:150-154 | `__iter__` yields every proper descendant exactly once, never the directory itself, and each parent before its children. Its files add up to the directory's size. |
| FileTree.SmallTotalPermutation | python/day_07/solution.py:181 | The part 1 sum does not depend on the order of the walk. |
| FileTree.SmallestFreeingIsLeast | python/day_07/solution.py:184 | Part 2 is the least size with `40000000 + size > used`. There is none exactly when no size qualifies, which is where `min` would raise. |
| FileTree.SmallestFreeingPermutation | python/day_07/solution.py:184 | Part 2 does not depend on the order of the walk. |
| FileTree.SumSmall | python/day_07/solution.py:181 | The part 1 loop sums the sizes strictly under 100000, in walk order. |
| FileTree.MinFreeing | python/day_07/solution.py:184 | The part 2 loop computes SmallestFreeing over the walk. |
| FileTree.ExampleAnswers | python/day_07/solution.py:83-114 | The example's directory sizes give 95437 and 24933642. |
| FileTree.DepthStep | python/day_07/solution.py:170-173 | Each `cd` moves one level down or up, and a session that stays inside never goes above the root. |
| FileTree.Next | python/day_07/solution.py:165-176 | One line of the session record: the known directories only grow, by at most the new current directory, and the files of every directory other than the current one stay as they were. |
| FileTree.Run | python/day_07/solution.py:162-176 | The record of a whole session from an empty `/`: `/` is always known, and each line adds at most one directory. |
| FileTree.NextEnter | python/day_07/solution.py:172-173 | In the session record, `cd x` makes the current path one name longer and records x as an empty directory the first time. |
| FileTree.RunStep | python/day_07/solution.py:164-176 | The record after one more line is one more step of `Next`. |
| FileTree.NextWellFormed | python/day_07/solution.py:165-176 | Every line keeps `/`, the current directory and the parent of every known directory known. |
| FileTree.RunWellFormed | python/day_07/solution.py:162-176 | After any lines, `/`, the current directory and the parent of every known directory are known. |
| FileTree.PathsInjective | python/day_07/solution.py:124-128 | Two paths whose objects are the same are the same path, since parent links and names decide the path. |
| FileTree.EnterTree | python/day_07/solution.py:172-173 | `cwd.mkdir(x)` returns child x, kept if present and made empty and fresh if not. The structure stays a tree and nothing else in `cwd` changes. |
| FileTree.Enter | python/day_07/solution.py:172-173 | The same step, and the objects mirror the session record one `cd x` further on, with the returned child as the object of the new current path. |
| FileTree.MirrorsGrow | python/day_07/solution.py:134-136 | Adding the new empty child under its name extends the path-to-object mirror by exactly the new path. |
| FileTree.Record | python/day_07/solution.py:174-176 | A size line sets that file's size in the current directory, overwriting an earlier one, and leaves its children alone. The tree stays a tree and mirrors the record one line on. |
| FileTree.Apply | python/day_07/solution.py:165-176 | `dir` and `$ ls` lines change nothing, `cd ..` moves to the parent, `cd x` moves to child x (the existing one, or a fresh empty one), and a size line sets that file in the current directory. The objects mirror `Next` of the session record. |
| FileTree.LoneRoot | python/day_07/solution.py:163 | A fresh `/` on its own is a tree. |
| FileTree.Begin | python/day_07/solution.py:162-163 | Before the loop, a fresh `/` alone is a tree rooted at `/` that mirrors the empty record, and it is the current directory. |
| FileTree.ReplayStep | python/day_07/solution.py:164-176 | One turn of the loop keeps the loop's state one line further: still a tree rooted at `/`, the current directory as deep as the lines say, and the objects mirroring `Run` of one more line. |
| FileTree.Replay | python/day_07/solution.py:162-176 | Replaying every line but the first from a fresh `/` leaves a tree rooted at `/`. Path by path, its directories are those of `Run`, with the same files, and the current directory is the object of `Run`'s current path. |
| FileTree.SizesInRemove | python/day_07/solution.py:181-184 | The sizes of a set of directories are the same up to order, whichever directory is taken last. |
| FileTree.Onto | python/day_07/solution.py:170-173 | Every object of the replayed tree is the object of some path of the record. |
| FileTree.SizeMirrors | python/day_07/solution.py:143-148 | The object of a path has the size that the record gives that path: its files plus the sizes of the known directories one level below. |
| FileTree.PathsOfSplit | python/day_07/solution.py:150-154 | Taking the last object off a walk without repeats takes exactly its one path off the walked paths. |
| FileTree.SizesAlongMirror | python/day_07/solution.py:150-154 | Up to order, the sizes along a walk are the record's sizes of the walked paths. |
| FileTree.WalkMirrors | python/day_07/solution.py:150-154 | Up to order, the sizes along the walk from `/` are the record's sizes of every directory but `/`. |
| FileTree.AnswersMirror | python/day_07/solution.py:178-184 | The two answers over the walk from `/` are Part1Of and Part2Of, the answers of the session record. |
| FileTree.Survey | python/day_07/solution.py:178-184 | From any directory, climb to the root and walk every directory below it once. Part 1 sums the sizes under 100000, and part 2 is the least size freeing enough against the root's size. |
| FileTree.Solve | python/day_07/solution.py:159-184 | Part 1 is Part1Of the lines: the sum of the sizes under 100000 of the directories the session enters below `/`. Part 2 is Part2Of the lines: the least such size that frees enough against the size of `/`, or none. |
| Treetop.MakeGrid | python/day_08/solution.py:86-91 | Each digit becomes its value 0..9, keeping rows and columns. |
| Treetop.EdgeVisible | python/day_08/solution.py:176 | A tree on the edge is visible. |
| Treetop.IsTreeVisible | python/day_08/solution.py:97-130 | True exactly when, in some direction, every tree up to the edge is strictly shorter. The downward scan runs to the last row (the corrected bound). |
| Treetop.ScanDownToLastRow | python/day_08/solution.py:110-114 | The downward scan bounded by the number of rows answers whether the view down is clear. |
| Treetop.ScanDown | python/day_08/solution.py:110-114 | The downward scan up to a given bound: it fails with an index error only when the bound passes the last row, and it reports blocked only when a tree at least as tall stands below within the bound. |
| Treetop.BlockedBelow | python/day_08/solution.py:110-114 | A tree at least as tall anywhere below blocks the view down. |
| Treetop.VisibleAsWritten | python/day_08/solution.py:97-130 | `is_tree_visible` with the `ncols` bound: it raises only on a grid with more columns than rows, and when it answers not visible the tree is hidden in every direction. It may call a hidden tree visible, but never hides a visible one. |
| Treetop.SquareAsWritten | python/day_08/solution.py:97-130 | On a square grid, the code as written answers exactly Visible. |
| Treetop.TallGridAsWritten | python/day_08/solution.py:110 | On a 4x3 grid, the code as written calls tree (1,1) visible, though it is hidden in every direction. |
| Treetop.WideGridAsWritten | python/day_08/solution.py:110-111 | On a 3x4 grid, the code as written indexes past the last row. |
| Treetop.DistanceBounds | python/day_08/solution.py:139-163 | A viewing distance lies between 0 and the trees to the edge, and is at least 1 when there is any tree. Every tree before the last one counted is shorter, and a distance that stops short of the edge ends on a tree at least as tall. |
| Treetop.DistanceIs | python/day_08/solution.py:139-163 | Those conditions determine the distance. |
| Treetop.ScoreZeroOnEdge | python/day_08/solution.py:136-165 | A tree scores 0 exactly when it stands on the edge. |
| Treetop.ScenicScore | python/day_08/solution.py:136-165 | The four counting loops return the product of the four viewing distances. |
| Treetop.CountVisible | python/day_08/solution.py:176-181 | Part 1 is `(nrows + ncols) * 2 - 4` plus the interior trees that are visible. |
| Treetop.PartOneCountsVisible | python/day_08/solution.py:176-181 | With at least two rows and two columns, that formula is exactly the number of visible trees. |
| Treetop.BestScore | python/day_08/solution.py:185-190 | Part 2 is at least 0, at least every interior tree's score, and 0 or the score of some interior tree. |
| Treetop.InteriorScorePositive | python/day_08/solution.py:186-190 | Every interior tree scores at least 1, so part 2 is positive on a grid with an interior. |
| Treetop.ExampleVisible | python/day_08/solution.py:13-35 | On the example grid, part 1 is 21: 16 edge trees and 5 interior ones. |
| Treetop.ExampleBest | python/day_08/solution.py:64-77 | On the example grid, no interior tree beats the score 8 of the tree at row 3, column 2. |
| Treetop.ExampleScoresRow1 | python/day_08/solution.py:48-62 | The middle 5 of the second row scores 4, and its neighbours score 1. |
| RockPaperScissors.RoundScore | python/day_02/solution.py:61-71 | A round scores between 1 and 9, and the score is congruent modulo 3 to the shape's points. |
| RockPaperScissors.RoundScoreInjective | python/day_02/solution.py:61-71 | A round's score determines the shape played and the outcome. |
| RockPaperScissors.RoundOutcome | python/day_02/solution.py:74-92 | Draw exactly for equal shapes, win exactly when our shape defeats the opponent's, loss exactly when it is defeated. |
| RockPaperScissors.RoundOutcomeSwap | python/day_02/solution.py:74-92 | `round_outcome(a, b)` is a win exactly when `round_outcome(b, a)` is a loss. |
| RockPaperScissors.FindOwnShape | python/day_02/solution.py:98-117 | The chosen shape realises the wanted outcome against the opponent. |
| RockPaperScissors.FindOwnShapeUnique | python/day_02/solution.py:98-117 | It is the only shape that does. |
| RockPaperScissors.LettersRoundTrip | python/day_02/solution.py:63-64 | The letter tables read back every shape and outcome letter, in either case. |
| RockPaperScissors.Word | python/day_02/solution.py:125 | The longest blank-free prefix of a line. |
| RockPaperScissors.WordsAreTokens | python/day_02/solution.py:125 | `str.split()` returns only non-empty runs of non-blanks. |
| RockPaperScissors.WordsOfPair | python/day_02/solution.py:125 | Splitting two tokens joined by blanks gives the two tokens back. |
| RockPaperScissors.ReadLine | python/day_02/solution.py:125 | A guide line of two letters separated by one space splits into exactly those two letters. |
| RockPaperScissors.WantedScore | python/day_02/solution.py:135-140 | Under the part 2 reading, a round scores the points of the shape `find_own_shape` picks plus the wanted outcome's points. |
| RockPaperScissors.TotalShapesBounds | python/day_02/solution.py:123-129 | A part 1 total lies between the number of rounds and nine times it. |
| RockPaperScissors.TotalWantedBounds | python/day_02/solution.py:133-140 | A part 2 total lies between the number of rounds and nine times it. |
| RockPaperScissors.PartOne | python/day_02/solution.py:123-131 | The part 1 loop returns the sum of round scores with the second letter read as a shape. |
| RockPaperScissors.PartTwo | python/day_02/solution.py:133-142 | The part 2 loop returns the sum of round scores with the second letter read as the wanted outcome. |
| RockPaperScissors.ExampleRounds | python/day_02/solution.py:27-51 | The three example lines under both readings. |
| RockPaperScissors.ExamplePartOne | python/day_02/solution.py:37 | The example guide totals 15 under the part 1 reading. |
| RockPaperScissors.ExamplePartTwo | python/day_02/solution.py:53 | The example guide totals 12 under the part 2 reading. |
| HillClimbing.WithinStep | python/day_12/solution.py:88-91 | One allowed step from a square reachable in k steps reaches a square within k + 1. |
| HillClimbing.WithinGraph | python/day_12/solution.py:78-93 | Only vertices are reachable from a vertex of a closed graph. |
| HillClimbing.RelaxedBound | python/day_12/solution.py:88-91 | Once every vertex is relaxed, a square reachable in k steps has distance at most k. |
| HillClimbing.Exact | python/day_12/solution.py:78-93 | Relaxed everywhere and backed by actual paths: every distance is the fewest steps. |
| HillClimbing.KeysOf | python/day_12/solution.py:80 | `list(graph.keys())` lists every vertex exactly once. |
| HillClimbing.ArgMin | python/day_12/solution.py:85 | `min(Q, key=dist.get)` picks the first entry of Q with the least distance. |
| HillClimbing.RelaxedKept | python/day_12/solution.py:88-91 | Distances never increase, so a relaxed vertex whose own distance is unchanged stays relaxed. |
| HillClimbing.BackedSound | python/day_12/solution.py:88-91 | Every finite distance is backed by a path of that many allowed steps. |
| HillClimbing.RelaxShorten | python/day_12/solution.py:89-91 | Setting `dist[v] = dist[u] + 1` when it is smaller and the step is allowed keeps the certificate and the relaxation invariant. |
| HillClimbing.RelaxKeep | python/day_12/solution.py:89-90 | A neighbour left unchanged keeps the relaxation invariant. |
| HillClimbing.RelaxFrom | python/day_12/solution.py:88-91 | The `for v in graph[u]` loop relaxes every allowed step out of u, and settled distances do not move. |
| HillClimbing.SettleStep | python/day_12/solution.py:84-91 | Settling the nearest unsettled vertex and relaxing its steps keeps the main-loop invariant. |
| HillClimbing.Dequeue | python/day_12/solution.py:85-86 | Removing the chosen vertex from Q leaves every other unsettled vertex queued exactly once. |
| HillClimbing.Dijkstra | python/day_12/solution.py:78-93 | Every vertex has a distance, and each is the fewest backward steps from the source (`inf` when unreachable). The loop runs once per vertex. |
| HillClimbing.Height | python/day_12/solution.py:107-118 | Every letter of the map has a height in 0..25. |
| HillClimbing.HeightOrder | python/day_12/solution.py:107-118 | Heights rise with the alphabet, `S` counts as `a`, and `E` counts as `z`. |
| HillClimbing.ScannedNext | python/day_12/solution.py:104-105 | The scan visits squares in reading order, one at a time. |
| HillClimbing.PointsStep | python/day_12/solution.py:119 | Scanning a square records its height. |
| HillClimbing.MarkStep | python/day_12/solution.py:107-116 | Scanning a square moves the last `S` (or `E`) mark there when the square holds it. |
| HillClimbing.StartsStep | python/day_12/solution.py:107-113 | Scanning an `S` or `a` square appends it to the starts, which stay in reading order. |
| HillClimbing.ScanStep | python/day_12/solution.py:106-119 | Scanning one square updates heights, start, starts and end as the letter says. |
| HillClimbing.RowDone | python/day_12/solution.py:104-105 | The end of one row is the start of the next. |
| HillClimbing.ScanSquare | python/day_12/solution.py:106-119 | The body of the inner scan loop keeps the scan invariant one square further. |
| HillClimbing.ScanRow | python/day_12/solution.py:105-119 | The inner scan loop covers one whole row. |
| HillClimbing.BuildPoints | python/day_12/solution.py:99-119 | `points` holds exactly the squares of the map, with their heights. `starts` holds exactly the `S` and `a` squares, in reading order. `start` and `end` are the last `S` and `E`. |
| HillClimbing.NeighboursUpToIn | python/day_12/solution.py:123-125 | The first k offsets list exactly the map squares at those offsets, each once. |
| HillClimbing.NeighboursAdjacent | python/day_12/solution.py:122-125 | The neighbours listed for a square are exactly its 4-neighbours that exist in the map. |
| HillClimbing.NeighboursSymmetric | python/day_12/solution.py:122-125 | A square is a neighbour of each of its neighbours. |
| HillClimbing.NeighboursOnce | python/day_12/solution.py:123-125 | No neighbour is listed twice. |
| HillClimbing.GraphClosed | python/day_12/solution.py:122-125 | Every listed neighbour is itself a vertex of the graph. |
| HillClimbing.ClimbStep | python/day_12/solution.py:88-91 | A backward step from u to v is exactly a climb from v to its 4-neighbour u that is at most one higher. |
| HillClimbing.BuildGraph | python/day_12/solution.py:121-125 | The `defaultdict` gets an entry exactly for the squares with a neighbour, listing `Neighbours` in offset order. The graph is closed. |
| HillClimbing.MinOver | python/day_12/solution.py:131 | `min(paths[s] for s in starts)` is one of the values and at most each of them. |
| HillClimbing.FewestOfAll | python/day_12/solution.py:131 | The least of the fewest steps to each start is the fewest steps to any start. |
| HillClimbing.StartsAreLow | python/day_12/solution.py:110-113 | The starts list holds exactly the squares marked `S` or `a`. |
| HillClimbing.NeighbourListed | python/day_12/solution.py:122-125 | A square with a 4-neighbour on the map is a vertex of the graph. |
| HillClimbing.Solve | python/day_12/solution.py:96-131 | Part 1 is the fewest climbing steps between the last `S` and the last `E`. Part 2 is the fewest from any `S` or `a` square. Heights and graph are as the map says. |
| Calories.Elf.constructor | python/day_01/second.py:19-21 | A new Elf carries 0 Calories. |
| Calories.Show | python/day_01/second.py:35 | Writing a natural number in decimal gives a numeral. |
| Calories.ValueShow | python/day_01/second.py:35 | `int` reads the decimal digits of n back as n. |
| Calories.PiecesJoin | python/day_01/second.py:30-35 | Cutting the lines at the blank lines and joining the pieces again with blanks gives the lines back. |
| Calories.PiecesCount | python/day_01/second.py:31-33 | There is one piece more than there are blank lines. |
| Calories.PiecesNoBlank | python/day_01/second.py:31-35 | No piece holds a blank line. |
| Calories.TalliesTotal | python/day_01/second.py:30-35 | The running Calories after i lines are the totals of the pieces of those lines. |
| Calories.PiecesBlank | python/day_01/second.py:31-33 | A blank line opens a new, empty piece. |
| Calories.PiecesLine | python/day_01/second.py:34-35 | Any other line joins the last piece. |
| Calories.TotalsNewPiece | python/day_01/second.py:33 | A fresh Elf adds a total of 0. |
| Calories.TotalsGrowLast | python/day_01/second.py:35 | A number line adds its value to the last total. |
| Calories.LastPiece | python/day_01/second.py:30-36 | The last piece is empty exactly when there are no lines or the last line is blank. |
| Calories.Feed | python/day_01/second.py:31-35 | One line: a blank closes the current Elf and opens a fresh one with 0 Calories, and any other line adds its value to the current Elf. |
| Calories.Group | python/day_01/second.py:26-35 | The loop leaves one closed Elf per blank line, carrying the running totals in order, and an open Elf with the last total that is distinct from all of them. |
| Calories.ElvesAndTheirCalories | python/day_01/second.py:24-36 | As written: as many Elves as blank lines, carrying the totals of every piece but the last. |
| Calories.ElvesAndTheirCaloriesFixed | python/day_01/second.py:24-36 | As intended: one Elf per group of items, carrying its total, including a last group with no blank line after it. |
| Calories.InsertDescending | python/day_01/second.py:43 | Inserting into a descending list keeps it descending. |
| Calories.InsertMembers | python/day_01/second.py:43 | The values after insertion are x and the old values. |
| Calories.InsertKeeps | python/day_01/second.py:43 | Inserting adds exactly x to the multiset. |
| Calories.InsertSum | python/day_01/second.py:43-44 | Inserting x adds x to the sum. |
| Calories.SortDescendingOrders | python/day_01/second.py:43 | `sorted(reverse=True)` orders the totals largest first. |
| Calories.SortDescendingKeeps | python/day_01/second.py:43 | The sort is a permutation of the totals. |
| Calories.SortDescendingSum | python/day_01/second.py:43-44 | The sort keeps the sum. |
| Calories.TopThreeLargest | python/day_01/second.py:42-44 | With three Elves or more, the answer is the sum of three of the totals, and every other total is at most each of them. |
| Calories.BeyondTop | python/day_01/second.py:43 | In a descending list, a value past the first three is at most each of them. |
| Calories.TopThreeFew | python/day_01/second.py:43-44 | With three Elves or fewer, the answer is the sum of all their Calories. |
| Calories.PartTwo | python/day_01/second.py:39-44 | The corrected answer: TopThree of the totals of ElvesAndTheirCaloriesFixed, with the last Elf counted (the written script drops it, see Findings). |
| Calories.AsWrittenLosesLast | python/day_01/second.py:30-36 | The written loop loses exactly the last group when the lines do not end with a blank line, and nothing otherwise. |
| Calories.LastElfDropped | python/day_01/second.py:30-44 | For the lines `1`, ``, `2`, the written loop gives 1 and the intended answer is 3. |

## Left out

- Reading `input.txt`, `print`, and splitting the file into lines. Every
  model takes the lines, or the parsed values, as parameters.
- Sand.Solve: the grid size is a parameter, not the source's fixed 500 by
  180. It requires the grid to hold every drawn waypoint and the whole cone
  of sand under the source, where the source would wrap negative indices or
  raise.
- Sand.Fall, Sand.Pour, Sand.Solve: they compute the corrected first
  answer, set once by a separate flag at the first grain below the abyss
  line. The source's `part1 == 0` sentinel is modelled by Part1AsWritten
  (see Findings).
- Calories.PartTwo: it computes the corrected answer, over
  ElvesAndTheirCaloriesFixed. The written loop, which drops the last Elf,
  is ElvesAndTheirCalories (see Findings).
- Sand.DrawRun, Sand.DrawRocks: the model records the lowest row of every
  drawn cell, which is the corrected abyss line (see Findings). The written
  tracking is LowestRockAsWritten.
- The 24 and 93 of the day 14 example are not computed. The example cave
  would have to be unfolded grain by grain through `Settle`, which is beyond
  what the verifier can evaluate here.
- The performance gain of the day 14 path stack is not modelled. Only its
  functional equivalence with restarting at the source is proved.
- Packets: `eval` parsing of packet lines is left out, and packets are given
  as values.
- Packets.Sort: it stands for `sorted` with `cmp_to_key` and
  `reverse=True`, and states an ordered permutation. Insert places a packet
  behind the packets level with it, as the stable library sort does, but
  full stability is not stated. The example's decoder key 140, and
  "`[[2]]` before `[[6]]`", would need transitivity of `in_order`, which is
  not proved.
- Packets.SumOfOrderedPairs: it requires an even number of packets. On an
  odd count the source's last `pop(0)` raises IndexError.
- Crates: the stacks are a sequence indexed from 0 rather than a dict.
  A stack number that is not a key (KeyError) is excluded by Legal9000 and
  Legal9001; ParseMoveLegal states which move lines those admit. `re.findall` is not modelled; a move is given as its three
  numbers.
- Crates.Move9000: it requires a crate to lift on every turn, where
  `s[-1]` on an empty stack raises.
- Crates.LoadCrates: it requires the columns it reads to exist in all
  eight lines, where the source raises IndexError.
- Crates.ExampleDrawing: the loader reads exactly the first eight lines, so
  the four-line example drawing is padded on top with blank lines. Fed the
  unpadded example, the source would raise IndexError.
- Crates.ReadTops, Crates.Part1, Crates.Part2: they require every stack to
  be non-empty after the moves, where `crate[-1]` on an empty stack raises.
- `deepcopy` in day 05 is value semantics: stacks are values, so the caller's
  stacks cannot change.
- FileTree.Walk: a map's keys are visited in an arbitrary order rather than
  in dict insertion order. Both answers are proved independent of that order.
- FileTree.Replay: it requires that no `cd ..` climbs above `/`, where the
  source would set the current directory to `None` and fail. Session lines
  come already classified (`$ ls`, `dir`, `$ cd`, size line); `line.split()`
  and `int(size)` are not modelled.
- FileTree.Next: in the session record, `cd ..` at `/` stays at `/`,
  where the source would set the current directory to `None`. Replay and
  Solve require StaysInside, so they never take that branch.
- Treetop.MakeGrid: it requires every line to have equal length, which
  `np.array` needs for a 2-D grid, and every character to be a digit.
- Treetop.PartOneCountsVisible: it requires at least two rows and two
  columns. On a single row or column, the edge formula counts some trees
  twice or gives a negative count.
- Treetop.CountVisible uses the corrected downward scan. The code as written
  is modelled by VisibleAsWritten (see Findings).
- RockPaperScissors, Crates.StripSpec: `str.lower` is ASCII-only.
  `str.split()` and `str.strip()` treat only ASCII blanks (and `\x1c` to
  `\x1f`) as blanks, not the other Unicode whitespace Python strips. A line that does not split into two known
  letters gives `None` where the source raises.
- HillClimbing: complex-number points become integer pairs, and
  `float("inf")` becomes `Inf`. The global `points` read inside `dijkstra`
  becomes the `heights` parameter.
- HillClimbing.Solve: it requires every character to be a letter `a`..`z`,
  `S` or `E`, where `ascii_lowercase.index` would raise. It requires an `S`
  (without one `paths[None]` raises KeyError) and every low square to have a
  4-neighbour (a low square outside the graph makes `paths[s]` raise
  KeyError). It also requires an `E` that has a 4-neighbour, because the
  model's Dijkstra requires its source to be a vertex of the graph. The
  source does not need this: with no `E`, or an `E` with no neighbour, it
  sets `dist[source] = 0` outside the graph's keys and prints `inf` for both
  parts. The model does not cover those inputs.
- The 31 and 29 of the day 12 example are not computed: Dijkstra would have
  to be evaluated over the 40-square example map.
- Calories: `int()` also accepts signs, surrounding blanks and underscores.
  The model reads only plain digit strings, and Inventory requires every
  non-blank line to be one.
- Calories.SortDescending: `sorted` is modelled as an insertion sort, stated
  through order, permutation and sum.
- The 45000 of the day 01 example is not computed, because the example's
  input lines are not part of this model.

## Findings

| source | as written | input that shows it | evidently intended | confidence | as-written member | corrected member |
|---|---|---|---|---|---|---|
| python/day_14/solution.py:211-213 | `abyss_y` is updated only after each move, so the first cell of a path is never recorded. Later pairs start at the previous pair's end, which was recorded. | The path `500,9 -> 500,5`: abyss line 8, floor at row 10. | The abyss line is the lowest rock row, 9, so the floor is at row 11. | high, not executed | Sand.AbyssAsWrittenMissesFirstCell | Sand.LowestRock |
| python/day_14/solution.py:228 | `part1 == 0` doubles as "not yet set", so when the first grain already passes the abyss line, part 1 is set later by another grain. | The path `500,1 -> 501,1` in a 9-wide grid: part 1 is 1. | Part 1 is 0, because no grain rests before the first one passes the lowest rock. | high, not executed | Sand.Part1SentinelExample | Sand.PreOverflowCount |
| python/day_08/solution.py:110 | The downward scan runs `range(row + 1, ncols)`, bounded by the number of columns. | Grid `999 / 959 / 000 / 999` (4 rows, 3 columns), tree at row 1, column 1: reported visible. | The scan runs to `nrows`, and the tree is hidden in every direction. | high, not executed | Treetop.TallGridAsWritten | Treetop.IsTreeVisible |
| python/day_01/second.py:30-36 | The Elf still open when the lines run out is never appended. | The lines `1`, ``, `2`: the answer is 1. | The last Elf counts too, so the answer is 3. | high, not executed | Calories.LastElfDropped | Calories.ElvesAndTheirCaloriesFixed |
