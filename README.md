# 8-puzzle A* with a breadth-first look-ahead, in Dafny

This project models the solving core of a small C++ program that solves the
8-puzzle. The 3x3 board holds tiles 0..8, and 0 is the blank. The solver is
an A* search whose expansion step is a breadth-first look-ahead of a given
depth. The repository holds two variants of the same program, and both are
modelled:

- `Assignment.cpp`, the newer variant. Its goal layout is
  [[0,1,2],[3,4,5],[6,7,8]]. Its Manhattan heuristic uses absolute
  differences. Its look-ahead shares one seen list (`allnodes`) and one
  expansion counter (`nodesExpanded`) with the search.
- `AStarWithBFS.cpp`, the earlier variant. Its goal test compares against
  [[0,1,3],[4,5,6],[7,8,9]]. Its Manhattan sum has no absolute values. Its
  look-ahead checks new children only against its own result list. Its
  search counts iterations and remembers the largest single look-ahead
  result.

Both variants share the same helper code: `actualRow`, `actualColumn`,
`checkEqualPositions`, `isInPreviousQueue`, `expand`, `append`,
`tileMismatch` and `checkSolvable`. That code is modelled once:

| Dafny module | file | contents |
|---|---|---|
| `Board` | `board.dfy` | the board as a value of nine row-major cells plus a depth; the C++ integer division and remainder; the blank and the four moves |
| `Heuristics` | `heuristics.dfy` | the Manhattan distance, its abs-free variant, and the tile mismatch count. Each is a specification function plus a method with the source's nested loops proved equal to it |
| `Successors` | `expansion.dfy` | `isInPreviousQueue`, `append` and `expand`, plus the breadth-first waves (`Absorb`, `Wave`, `Waves`) that both look-aheads run |
| `Fringe` | `fringe.dfy` | the priority queue as a list, whose `top()`/`pop()` removes some state of least priority |
| `LayoutCount` | `layout_count.dfy` | at most 9^9 pairwise distinct layouts of tiles 0..8, which bounds the newer search's loop |
| `Solvability` | `solvability.dfy` | `checkSolvable` (inversion parity) and the fact that a move of the blank keeps the parity |
| `Runs` | `runs.dfy` | a run as a chain of snapshots, each related to the next by a step relation |
| `Assignment` | `assignment.dfy` | the newer goal test, look-ahead and A* loop, with the built-in test board |
| `AStarWithBfs` | `astar_with_bfs.dfy` | the earlier goal test, look-ahead and A* loop |

Each search is a method that returns its result together with a ghost
`run`. A run is the sequence of the loop's variables at the head of every
iteration. The run is proved to follow the step relation `Step`: the
look-ahead's states are pushed onto the fringe, then some state of least
`depth + h` is popped. The lemmas about runs then state what the search
guarantees.

Three points about the source are easy to misread:

- Assignment.cpp's comparators (Assignment.cpp:43-54) call `manhattanDistance` and `tileMismatch` before those functions are declared (Assignment.cpp:74 and 85), with no forward declaration. As written, standard C++ rejects this lookup. AStarWithBFS.cpp places its comparators after the heuristics (AStarWithBFS.cpp:252-263). The model gives the evident meaning: the key is depth plus the heuristic.
- The built-in test board [[1,2,0],[3,4,5],[6,7,8]] (Assignment.cpp:530-545)
  is two moves from the goal, not one: the blank has to move left twice.
  The newer search ends on the goal at depth 2 (`Assignment.TestRun`).
- The newer search does not report an exhausted fringe as a failure. When
  the fringe is empty after a push, its Manhattan branch leaves the loop and
  returns the state it stands on (Assignment.cpp:327-333). Its other branch
  calls `top()` on the empty queue (Assignment.cpp:357), which this model
  reports as `TopOfEmptyFringe`.

## Model

| member | source | states |
|---|---|---|
| Board.ActualRow | Assignment.cpp:66-68 | division truncated toward zero as in C++; for a non-negative number and a positive column count, the row `r` satisfies `r*cols <= num < (r+1)*cols` |
| Board.ActualColumn | Assignment.cpp:70-72 | C++ remainder: `cols*row + col == num`, it is smaller in size than `cols`, and it has the sign of `num` |
| Board.RowMajor | Assignment.cpp:66-72 | for a cell 0..8, row and column are in 0..2, equal `p/3` and `p%3`, and `3*row + col == p` |
| Board.CheckEqualPositions | Assignment.cpp:125-133 | true exactly when the two layouts are equal cell for cell (depths are not compared) |
| Board.BlankIndex | Assignment.cpp:154-161 | on a layout with a blank, a cell holding 0 with no 0 after it in row-major order, i.e. the cell the scan ends on |
| Board.UniqueBlank | Assignment.cpp:154-161 | on a permutation of 0..8 the scan's cell holds the blank and no other cell does |
| Board.Target | Assignment.cpp:163-208 | a move is impossible exactly when the blank is in row 0 (up), row 2 (down), column 0 (left) or column 2 (right) |
| Board.TargetAdjacent | Assignment.cpp:163-221 | every possible move swaps the blank with an orthogonal neighbour |
| Board.Swap | Assignment.cpp:165-169 | the two cells exchange their tiles, and every other cell keeps its tile |
| Board.SwapKeepsTiles | Assignment.cpp:165-169 | a swap keeps the multiset of tiles |
| Board.ChildIsPermutation | Assignment.cpp:163-221 | the child of a permutation of 0..8 is a permutation of 0..8 |
| Heuristics.ManhattanDistance | Assignment.cpp:74-83 | the nested loops compute the sum over non-blank tiles of the row and column distances to the tile's goal cell |
| Heuristics.TileMismatches | Assignment.cpp:85-95 | the nested loops count the non-blank tiles outside their goal cell |
| Heuristics.SignedManhattanDistance | AStarWithBFS.cpp:48-57 | the earlier variant's loops compute the signed sum of those differences, without absolute values |
| Heuristics.InPlace | Assignment.cpp:74-95 | a non-blank tile adds 0 to either heuristic exactly when it sits on its goal cell |
| Heuristics.ManhattanAtLeastMismatch | Assignment.cpp:74-95 | over every prefix of cells, the mismatch count is non-negative and at most the Manhattan distance |
| Heuristics.EstimatesNonNegative | Assignment.cpp:74-95 | on every layout, neither estimate is negative and the Manhattan distance is at least the mismatch count |
| Heuristics.HeuristicBounds | Assignment.cpp:74-95 | on a permutation, `0 <= tileMismatch <= 8` and `tileMismatch <= manhattanDistance` |
| Heuristics.GoalScoresZero | Assignment.cpp:74-104 | all three heuristics are 0 on the goal layout |
| Heuristics.ZeroExactlyOnGoal | Assignment.cpp:74-104 | on a permutation, each of the Manhattan distance and the mismatch count is 0 if and only if the layout is the goal |
| Heuristics.PlacedIsGoal | Assignment.cpp:97-104 | a permutation whose non-blank tiles are all on their goal cells is the goal layout |
| Heuristics.SignedManhattanBounds | AStarWithBFS.cpp:48-57 | on every permutation, the abs-free sum lies in -4..0 |
| Heuristics.SignedManhattanIsBlankOffset | AStarWithBFS.cpp:48-57 | on a permutation, the abs-free sum is minus the blank's row plus column, so it lies in -4..0 |
| Successors.IsInPreviousQueue | Assignment.cpp:135-145 | true exactly when some element of `prev` has the layout of `check` |
| Successors.InPrevAppend | Assignment.cpp:135-145 | bookkeeping step for the look-ahead loops: a layout is in a concatenation exactly when it is in one of the parts |
| Successors.Append | Assignment.cpp:225-232 | the result is `temp1` followed by `temp3` |
| Successors.FindBlank | Assignment.cpp:150-161 | the scan returns a row and column in 0..2 naming the last zero in row-major order |
| Successors.Expand | Assignment.cpp:146-223 | the method returns the kept children in the order up, down, left, right |
| Successors.BlankMoves | Assignment.cpp:162-221 | each of the four branches of `expand` yields the child of its move, or nothing when its guard fails or the copy is already in `prev` |
| Successors.KeptSound | Assignment.cpp:162-221 | each move gives at most one child, one level deeper and not in `prev`, whose layout is the parent's with the blank swapped to an adjacent cell |
| Successors.ExpansionSound | Assignment.cpp:146-223 | at most four children, each one level deeper, not in `prev`, with the same tiles, and one blank swap away from the parent |
| Successors.ExpansionComplete | Assignment.cpp:174-219 | every legal move whose child is not in `prev` contributes that child |
| Successors.ExpansionKeepsBlank | Assignment.cpp:162-221 | children of a board with a blank have a blank |
| Successors.ExpansionKeepsPermutation | Assignment.cpp:162-221 | children of a permutation of 0..8 are permutations of 0..8 |
| Successors.LegalMovesFacts | Assignment.cpp:163-208 | the legal moves are listed in the order up, down, left, right; a corner has 2, an edge 3 and the centre 4 |
| Successors.FreshExpansion | Assignment.cpp:162-221 | with an empty `prev`, the i-th child is the child of the i-th legal move |
| Successors.FreshExpansionSize | Assignment.cpp:162-221 | with an empty `prev`, a corner blank gives 2 children, an edge blank 3 and the centre 4 |
| Successors.ExpansionDistinct | Assignment.cpp:146-223 | the children of a permutation have pairwise distinct layouts |
| Successors.DistinctAppend | Assignment.cpp:243-260 | bookkeeping step for this loop: appending distinct layouts that are not in the list keeps the list's layouts distinct |
| Successors.ExtendKeeps | Assignment.cpp:258-264 | bookkeeping step for this loop: appending a non-empty new expansion to both lists and counting it keeps the look-ahead's bookkeeping |
| Successors.AbsorbKeeps | Assignment.cpp:253-264 | bookkeeping step for this loop: one expansion keeps the bookkeeping: the seen list is the starting list plus everything found, the found layouts are distinct and new, and each counted expansion found something; found and count only grow |
| Successors.WaveKeeps | Assignment.cpp:250-266 | a whole wave keeps that bookkeeping |
| Successors.WavesKeep | Assignment.cpp:249-269 | any number of waves keep that bookkeeping |
| Successors.WavesTiles | Assignment.cpp:249-269 | the waves from permutations find only permutations |
| Fringe.Remove | Assignment.cpp:329-330 | the list without its i-th state: earlier states keep their places and later ones move up by one |
| Fringe.RemoveOne | Assignment.cpp:329-330 | removing takes exactly one copy of the popped state out of the fringe's multiset |
| Fringe.PopMin | Assignment.cpp:327-331 | `top()` then `pop()`: returns a state of least priority and the fringe without it |
| LayoutCount.CodeInjective | Assignment.cpp:316-338 | termination step for this loop: the base-9 code of a tile layout determines the layout |
| LayoutCount.CodesCount | Assignment.cpp:316-338 | termination step for this loop: distinct layouts have as many distinct codes as there are layouts |
| LayoutCount.DistinctLayoutsBounded | Assignment.cpp:316-338 | a list of distinct permutation layouts holds at most 9^9 states, which bounds the seen list |
| Solvability.CheckSolvable | Assignment.cpp:385-408 | true exactly when the number of row-major pairs of non-blank tiles with the earlier one larger is even |
| Solvability.MovePreservesParity | Assignment.cpp:385-408 | on a permutation, one move of the blank keeps the parity of the inversion count, hence the verdict |
| Solvability.GoalIsSolvable | Assignment.cpp:385-408 | the goal has no inversions and is solvable |
| Solvability.PlayPreservesParity | Assignment.cpp:385-408 | any sequence of moves keeps the permutation and the verdict |
| Solvability.ScrambledFromGoalIsSolvable | Assignment.cpp:496-501 | every board reached from the goal by moves of the blank is solvable |
| Assignment.GoalTest | Assignment.cpp:97-104 | true exactly on [[0,1,2],[3,4,5],[6,7,8]] |
| Assignment.CheckOptimal | Assignment.cpp:505-510 | the verdict is "YES" exactly when the final state is the goal layout, and "NO" otherwise |
| Assignment.Priority | Assignment.cpp:43-54 | the two comparators' key `depth + h`: it is never below the depth, equals the depth on the goal layout, and for 'm' is at least depth plus the mismatch count |
| Assignment.BatchExpandFacts | Assignment.cpp:234-271 | on a permutation: `allnodes` grows by exactly what is returned, the returned layouts are distinct, none was seen before, all are permutations, the counter grows by at most the number returned, the result is empty exactly when the first expansion is, and it starts with that expansion |
| Assignment.ShallowBatch | Assignment.cpp:236-249 | with depth at most 1, the result is `expand(S, allnodes)`, it is appended to `allnodes`, and it counts once when it is not empty |
| Assignment.ModifiedExpand | Assignment.cpp:234-271 | the method returns the look-ahead's result, the new `allnodes` and the counter grown by the number of expansions that found something |
| Assignment.ExpandWaves | Assignment.cpp:248-269 | the outer loop runs `d` waves, each starting from the last expansion of the wave before |
| Assignment.ExpandWave | Assignment.cpp:250-266 | one pass of the inner loop is the wave of expansions over `temp2` |
| Assignment.Pushed | Assignment.cpp:317-326 | the push keeps the old fringe as a prefix, and the largest fringe size never shrinks and covers the new size |
| Assignment.Step | Assignment.cpp:316-338 | one iteration happens only when the current state is not the goal; the next state is one of the pushed fringe, and the fringe loses one state and gains none |
| Assignment.StepTakesLeast | Assignment.cpp:327-331 | the state a step takes has a priority no larger than that of any state in the pushed fringe |
| Assignment.Final | Assignment.cpp:316-372 | the loop goes on exactly when the state is not the goal and the pushed fringe is not empty; it returns the current state on the goal, or for 'm' on an empty fringe; only the other branch reads an empty fringe |
| Assignment.StepShape | Assignment.cpp:316-331 | a step keeps the pushed seen list and counters and leaves the fringe one state shorter |
| Assignment.StartFacts | Assignment.cpp:302-315 | the starting snapshot (`maxFringeSize` 1, `allnodes` holding the initial state) satisfies the loop invariants |
| Assignment.PushedFacts | Assignment.cpp:317-326 | the push appends to `allnodes` exactly what it pushed, and keeps the seen list distinct and all states permutations |
| Assignment.StepFacts | Assignment.cpp:316-338 | a step keeps the invariants, never lowers the largest fringe size or the counter, and grows the seen list or shrinks the fringe |
| Assignment.RemoveKeepsPermutations | Assignment.cpp:329-330 | popping from a fringe of permutations leaves permutations |
| Assignment.PopStep | Assignment.cpp:327-331 | popping a least-priority state after the push is a step, and it moves the loop forward within the bound of 9^9 layouts |
| Assignment.Push | Assignment.cpp:317-326 | the method performs the push: look-ahead, each state pushed, largest fringe size updated |
| Assignment.ModifiedAStar | Assignment.cpp:301-372 | from a permutation the loop terminates, and the returned result and ghost run form a run of the search |
| Assignment.RunInvariant | Assignment.cpp:316-363 | every snapshot of a run from a permutation keeps the invariants |
| Assignment.RunMaxGrows | Assignment.cpp:325-326 | along a run the largest fringe size never decreases |
| Assignment.PushWithinStep | Assignment.cpp:325-326 | the fringe size right after a push is at most the largest size recorded by the step, and so at most any bound on it |
| Assignment.RunOutcome | Assignment.cpp:301-372 | a finished search has `maxFringeSize >= 1` and at least every fringe size after a push; the Manhattan branch returns only on the goal or on an empty fringe, the other branch only on the goal; only the other branch reads an empty fringe |
| Assignment.CreateTest | Assignment.cpp:530-545 | the test board [[1,2,0],[3,4,5],[6,7,8]] at depth 0 is a permutation |
| Assignment.TestChildren | Assignment.cpp:162-221 | the test board's blank moves only down and left |
| Assignment.Left1Children | Assignment.cpp:162-221 | from [[1,0,2],...] the blank moves down, left (to the goal) and right (back to the test board) |
| Assignment.FirstExpansion | Assignment.cpp:237-243 | the first expansion of the test board against `[initialState]` is its down and left children |
| Assignment.SecondExpansion | Assignment.cpp:237-243 | the second expansion keeps the down and left children and drops the right child, already seen |
| Assignment.TestFirstPush | Assignment.cpp:317-326 | the first push gives fringe [Down1, Left1], three seen states, count 1 and largest fringe size 2 |
| Assignment.TestSecondPush | Assignment.cpp:317-326 | the second push gives a fringe of three states, five seen states, count 2 and largest fringe size 3 |
| Assignment.Left1Priority | Assignment.cpp:43-48 | the Manhattan key of [[1,0,2],...] at depth 1 is 2 |
| Assignment.StepTakes | Assignment.cpp:327-331 | a step takes the state of strictly least priority when there is one |
| Assignment.FirstStep | Assignment.cpp:327-331 | the first step from the test board takes [[1,0,2],...] |
| Assignment.SecondStep | Assignment.cpp:327-331 | the second step takes the goal |
| Assignment.TestRun | Assignment.cpp:301-372 | the test board with ('m', 1) ends after two iterations on the goal at depth 2, with largest fringe size 3 and count 2 |
| AStarWithBfs.GoalTest | AStarWithBFS.cpp:71-78 | true exactly on [[0,1,3],[4,5,6],[7,8,9]] |
| AStarWithBfs.GoalUnreachable | AStarWithBFS.cpp:71-78 | no permutation of 0..8 passes that goal test |
| AStarWithBfs.CheckOptimal | AStarWithBFS.cpp:408-413 | the verdict is "YES" exactly when the final state is [[0,1,3],[4,5,6],[7,8,9]], and "NO" otherwise |
| AStarWithBfs.NeverOptimal | AStarWithBFS.cpp:408-413 | the verdict is "NO" on every board of the tiles 0..8 |
| AStarWithBfs.Priority | AStarWithBFS.cpp:252-263 | the comparators' key: for 'm', on a permutation, between depth - 4 and the depth; otherwise never below the depth; equal to the depth on the goal layout |
| AStarWithBfs.LookaheadShape | AStarWithBFS.cpp:204-224 | the look-ahead starts with every child of `S`, unfiltered; it returns at least 2 states, and with depth at most 1 exactly those children |
| AStarWithBfs.LookaheadDistinct | AStarWithBFS.cpp:204-224 | from a permutation, the returned layouts are pairwise distinct permutations |
| AStarWithBfs.WavesGrow | AStarWithBFS.cpp:212-222 | the waves only append to the result list |
| AStarWithBfs.ModifiedExpand | AStarWithBFS.cpp:204-224 | the method returns the look-ahead's result |
| AStarWithBfs.ExpandWave | AStarWithBFS.cpp:213-219 | one pass of the inner loop is the wave of expansions over `temp2`, each checked against `temp1` |
| AStarWithBfs.StartReappears | AStarWithBFS.cpp:206-218 | from the test board with depth 2 the result holds the start's own layout: the start itself is never added to `temp1` (AStarWithBFS.cpp:206-207), yet its layout comes back in the second wave |
| AStarWithBfs.TestExpansion | AStarWithBFS.cpp:207 | with nothing to check against, the test board has its down and left children |
| AStarWithBfs.SignedPriorityBounds | AStarWithBFS.cpp:252-257 | on a permutation, the 'm' key is the depth minus the blank's row plus column, between depth - 4 and depth |
| AStarWithBfs.SignedBelowManhattan | AStarWithBFS.cpp:48-57 | on [[1,0,2],...] at depth 1 the earlier key is 0, while the newer key is 2 |
| AStarWithBfs.Pushed | AStarWithBFS.cpp:277-287 | the push counts one iteration, keeps the old fringe as a prefix, adds at least two states and never lowers the largest batch size |
| AStarWithBfs.ModifiedAStar | AStarWithBFS.cpp:266-319 | the returned result and ghost run form a run of the search within `fuel` iterations |
| AStarWithBfs.RunCounts | AStarWithBFS.cpp:276-289 | after k iterations the counter is k and the fringe holds at least k states, so its top is never read when it is empty |
| AStarWithBfs.RunLargestBound | AStarWithBFS.cpp:279-280 | the largest size is at least the size of every look-ahead so far |
| AStarWithBfs.RunLargestAttained | AStarWithBFS.cpp:267-280 | the largest size is 0 before the first look-ahead and afterwards the size of one of them, not a fringe size |
| AStarWithBfs.StepMax | AStarWithBFS.cpp:279-280 | a step sets the largest size to the larger of the old one and this look-ahead's size |
| AStarWithBfs.Step | AStarWithBFS.cpp:276-290 | one iteration happens only when the current state is not the goal; it counts one iteration, and the next state is one of the pushed fringe, which loses one state and gains none |
| AStarWithBfs.StepShape | AStarWithBFS.cpp:276-289 | a step counts one iteration and changes the fringe by the look-ahead's size minus the popped state |
| AStarWithBfs.RunPermutations | AStarWithBFS.cpp:276-310 | from a permutation, every current state and every fringe state is a permutation |
| AStarWithBfs.NeverSolves | AStarWithBFS.cpp:266-319 | from a permutation the search never finishes: every run spends its whole budget |

## Left out

- Console output: `displayState`, `displayCost`, `displayPathTaken` and the tracing inside `modifiedAStar`. They only print. `checkOptimal`, the "YES"/"NO" verdict they print, is modelled as `CheckOptimal`.
- `main`, the driver that builds the starting boards, runs both searches for each heuristic and depth, and prints the results.
- `generateRandomSolvablePuzzle`, because it depends on `rand()`. The two files' generators differ.
  - The one in AStarWithBFS.cpp:358-386 fills the board with tiles drawn by `rand()%9`, skipping tiles already placed. It never clears the board between passes (AStarWithBFS.cpp:373-380). If the first board is not solvable, the second pass finds every tile 0..8 already present, and `while(isPresent(start,tile))` never ends. So it returns only when its first board is solvable.
  - The one in Assignment.cpp:423-492 draws no tiles. It starts from the goal and runs its move loop `rand()%2` times (Assignment.cpp:435), that is 0 or 1 times. The direction is `rand() % 4` (Assignment.cpp:441), in 0..3. Direction 0 matches no branch and makes no move. The branch for `direction == 4` (Assignment.cpp:479), the move right, is never taken. So it returns the goal or the goal with the blank moved once, and never to the right.
  - For that second generator the model proves that any board reached from the goal by moves is solvable (`Solvability.ScrambledFromGoalIsSolvable`).
- `isPresent` (Assignment.cpp:375-383) and `findZero` (Assignment.cpp:410-420). They are plain scans of the board, used only as helpers of the random generators, and are left out with them.
- The `parent` pointers and the path they rebuild. They point at a by-value parameter that no longer exists.
- The two heuristic branches of each `modifiedAStar` are one loop here, told apart by the heuristic character.
- Fixed-width `int` arithmetic. The counters and sizes are unbounded integers. A 32-bit overflow would take more than 2^31 expansions or fringe entries.
- `expand`'s uninitialised `row` and `col` on a board without a blank. Here they start at (0, 0). The searches are only proved correct on permutations, which always have a blank.
- Assignment.ModifiedAStar: it requires a permutation of 0..8, because the model's termination argument (the bound on distinct layouts) needs one. The one live call site passes a permutation: `main` calls `createTest()` (Assignment.cpp:588, then 595-598). The generator call in this file is commented out (Assignment.cpp:584). AStarWithBFS.cpp's generator feeds only that file's own search. Both generators would produce permutations: one places each tile 0..8 once, the other moves the blank of the goal layout.
- AStarWithBfs.ModifiedAStar: it takes an iteration budget `fuel` and reports `OutOfFuel` when it is spent. On a permutation the source never stops (`AStarWithBfs.NeverSolves`).
- The inner loops of both look-aheads are the separate methods `Assignment.ExpandWave` and `AStarWithBfs.ExpandWave`, called from the wave loop.
- The `priority_queue` is a list. Which of several least-priority states is popped is left open, as `std::priority_queue` does not fix it.

## Findings

| source | as written | input that shows it | evidently intended | confidence | as-written member | corrected member |
|---|---|---|---|---|---|---|
| AStarWithBFS.cpp:71-78 | the goal test compares with [[0,1,3],[4,5,6],[7,8,9]], a layout holding 9 and no 2 | any permutation of 0..8, e.g. [[0,1,2],[3,4,5],[6,7,8]] | the goal [[0,1,2],[3,4,5],[6,7,8]] that the file's own comment states (AStarWithBFS.cpp:388-396) | not executed | AStarWithBfs.NeverSolves | Assignment.TestRun |
| AStarWithBFS.cpp:53 | the Manhattan sum adds `i - row + j - col` without absolute values | [[1,0,2],[3,4,5],[6,7,8]]: the sum is -1, where the distance is 1 | the sum of absolute differences, which is 0 exactly on the goal | not executed | AStarWithBfs.SignedBelowManhattan | Heuristics.ZeroExactlyOnGoal |
