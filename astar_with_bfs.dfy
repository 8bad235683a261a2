/**
 * The earlier solver (AStarWithBFS.cpp): the goal test on the layout
 * [[0,1,3],[4,5,6],[7,8,9]], a look-ahead whose only memory is its own
 * result list, and an A* loop that counts iterations and remembers the
 * largest single look-ahead result. Its priorities are depth plus the
 * abs-free Manhattan sum or depth plus the tile mismatch count.
 */
module AStarWithBfs {
  import opened Board
  import opened Heuristics
  import opened Successors
  import opened Fringe
  import opened Runs
  import A = Assignment

  /** The layout this variant's goal test accepts; it holds 9 and no 2. */
  const OldGoal: Layout := [0, 1, 3, 4, 5, 6, 7, 8, 9]

  /** The nine cells compared one by one with [[0,1,3],[4,5,6],[7,8,9]]. */
  function GoalTest(p: Board): (r: bool)
    ensures r <==> p.cells == OldGoal
  {
    var c := p.cells;
    At(c, 0, 0) == 0 && At(c, 0, 1) == 1 && At(c, 0, 2) == 3 &&
    At(c, 1, 0) == 4 && At(c, 1, 1) == 5 && At(c, 1, 2) == 6 &&
    At(c, 2, 0) == 7 && At(c, 2, 1) == 8 && At(c, 2, 2) == 9
  }

  /** No board of the tiles 0..8 passes this goal test: it asks for a 9. */
  lemma GoalUnreachable(c: Layout)
    requires IsTilePermutation(c)
    ensures !GoalTest(Board(c, 0)) && c != OldGoal
  {
    PermutationFacts(c);
    assert c[8] <= 8 < OldGoal[8];
  }

  /** The verdict printed beside a search's result: "YES" when the final
      state passes this goal test, "NO" otherwise. */
  function CheckOptimal(p: Board): (r: string)
    ensures r == "YES" <==> p.cells == OldGoal
    ensures r == "YES" || r == "NO"
  {
    if GoalTest(p) then "YES" else "NO"
  }

  /** The verdict is "NO" on every board of the tiles 0..8. */
  lemma NeverOptimal(p: Board)
    requires IsTilePermutation(p.cells)
    ensures CheckOptimal(p) == "NO"
  {
    GoalUnreachable(p.cells);
  }

  // ---------------------------------------------------------------------
  // The look-ahead
  // ---------------------------------------------------------------------

  /** What the look-ahead from `S` computes: the children of `S` (nothing is
      filtered, the result list being empty), then `depth - 1` waves, each
      child checked only against the result list so far. The result list is
      both what is returned and what is checked against, so `found` and
      `seen` coincide. */
  function Lookahead(S: Board, depth: int): (b: Batch)
  {
    var first := Expansion(S, []);
    Waves(first, depth - 1, Batch(first, first, 0, []))
  }

  /** What the look-ahead returns starts with every child of `S`, one per
      legal move, so it holds at least two states; with a depth of at most 1
      it is exactly those children. */
  lemma LookaheadShape(S: Board, depth: int)
    ensures var b := Lookahead(S, depth);
            && Expansion(S, []) <= b.found
            && |b.found| >= 2
            && (depth <= 1 ==> b.found == Expansion(S, []))
  {
    var first := Expansion(S, []);
    FreshExpansionSize(S);
    WavesGrow(first, depth - 1, Batch(first, first, 0, []));
  }

  /** From a permutation layout the look-ahead returns pairwise distinct
      permutation layouts: each later expansion is checked against the
      result list so far. */
  lemma LookaheadDistinct(S: Board, depth: int)
    requires IsTilePermutation(S.cells)
    ensures DistinctLayouts(Lookahead(S, depth).found)
    ensures AllPermutations(Lookahead(S, depth).found)
  {
    var first := Expansion(S, []);
    var acc := Batch(first, first, 0, []);
    ExpansionDistinct(S, []);
    ExpansionKeepsPermutation(S, []);
    assert Consistent([], acc);
    WavesTiles(first, depth - 1, acc);
    WavesKeep([], first, depth - 1, acc);
  }

  /** Waves only append to the found list. */
  lemma {:induction false} WavesGrow(frontier: seq<Board>, d: int, acc: Batch)
    ensures acc.found <= Waves(frontier, d, acc).found
    decreases if d > 0 then d else 0
  {
    if d > 0 {
      WaveGrows(frontier, acc);
      var a := Wave(frontier, acc);
      WavesGrow(a.last, d - 1, a);
    }
  }

  lemma {:induction false} WaveGrows(wave: seq<Board>, acc: Batch)
    ensures acc.found <= Wave(wave, acc).found
    decreases |wave|
  {
    if wave != [] {
      WaveGrows(wave[1..], Absorb(wave[0], acc));
    }
  }

  /** The look-ahead as the source runs it: `temp1` is both the result and
      the list every later expansion is checked against, and the next wave
      is the result of the last expansion of the wave before. */
  method ModifiedExpand(S: Board, depth: int) returns (temp1: seq<Board>)
    ensures temp1 == Lookahead(S, depth).found
  {
    temp1 := Expand(S, []);
    var temp2 := temp1;
    var temp3: seq<Board> := [];
    ghost var calls := 0;
    var d := depth - 1;
    while d > 0
      invariant Waves(temp2, d, Batch(temp1, temp1, calls, temp3)) == Lookahead(S, depth)
      decreases d
    {
      temp1, temp3, calls := ExpandWave(temp2, temp1, temp3, calls);
      d := d - 1;
      temp2 := temp3;
    }
  }

  /** One pass of the look-ahead's inner loop over the wave `temp2`: each
      state expanded against the result list, and what it gives appended to
      it. The ghost `calls` counts the expansions that gave something. */
  method ExpandWave(temp2: seq<Board>, temp1: seq<Board>, temp3: seq<Board>, ghost calls: nat)
    returns (temp1': seq<Board>, temp3': seq<Board>, ghost calls': nat)
    ensures Batch(temp1', temp1', calls', temp3') == Wave(temp2, Batch(temp1, temp1, calls, temp3))
  {
    temp1', temp3', calls' := temp1, temp3, calls;
    for k := 0 to |temp2|
      invariant Wave(temp2[k..], Batch(temp1', temp1', calls', temp3'))
                == Wave(temp2, Batch(temp1, temp1, calls, temp3))
    {
      assert temp2[k..][1..] == temp2[k + 1..];
      ghost var acc := Batch(temp1', temp1', calls', temp3');
      var C := temp2[k];
      temp3' := Expand(C, temp1');
      temp1' := Append(temp1', temp3');
      if temp3' != [] {
        calls' := calls' + 1;
      }
      assert Batch(temp1', temp1', calls', temp3') == Absorb(C, acc);
    }
    assert temp2[|temp2|..] == [];
  }

  /** The look-ahead meets its own start again: from the test board of
      Assignment.cpp, the second wave expands `Down1` against a list that
      never held the start, and its upward child is the start's layout. */
  lemma StartReappears()
    ensures InPrev(Lookahead(A.CreateTest(), 2).found, A.CreateTest())
  {
    var first := [A.Down1, A.Left1];
    var acc := Batch(first, first, 0, []);
    TestExpansion();
    var back := Board(A.CreateTest().cells, 2);
    UpIsBack();
    var a1 := Absorb(A.Down1, acc);
    assert a1.found[2] == back;
    WaveGrows([A.Left1], a1);
    var a := Wave(first, acc);
    assert a == Wave([A.Left1], a1);
    assert a.found[2] == back;
    assert Lookahead(A.CreateTest(), 2) == a;
  }

  /** With nothing to check against, the test board has its two children. */
  lemma TestExpansion()
    ensures Expansion(A.CreateTest(), []) == [A.Down1, A.Left1]
  {
    var s0 := A.CreateTest();
    A.TestChildren();
    A.KeptNone(s0, Up, []);
    A.KeptOne(s0, Down, [], A.Down1);
    A.KeptOne(s0, Left, [], A.Left1);
    A.KeptNone(s0, Right, []);
    A.DownAndLeft(s0, [], A.Down1, A.Left1);
  }

  /** Against `[Down1, Left1]` the first child of `Down1` is the start's layout. */
  lemma UpIsBack()
    ensures var e := Expansion(A.Down1, [A.Down1, A.Left1]);
            |e| > 0 && e[0] == Board(A.CreateTest().cells, 2)
  {
    var back := Board(A.CreateTest().cells, 2);
    DownChildren();
    assert !InPrev([A.Down1, A.Left1], back) by {
      assert A.Down1.cells[2] != back.cells[2] && A.Left1.cells[1] != back.cells[1];
    }
    assert Kept(A.Down1, Up, [A.Down1, A.Left1]) == [back];
  }

  lemma DownChildren()
    ensures Child(A.Down1, Up) == Some(Board(A.CreateTest().cells, 2))
  {
    var c := A.Down1.cells;
    BlankAt(c, 5);
    assert Swap(c, 5, 2) == [1, 2, 0, 3, 4, 5, 6, 7, 8];
  }

  // ---------------------------------------------------------------------
  // The search
  // ---------------------------------------------------------------------

  /** The fringe's key: depth plus the abs-free Manhattan sum for 'm', depth
      plus tile mismatches for any other heuristic character. */
  function Priority(heuristic: char): (key: Board -> int)
    ensures heuristic == 'm' ==>
              forall b: Board :: IsTilePermutation(b.cells) ==> b.depth - 4 <= key(b) <= b.depth
    ensures heuristic != 'm' ==> forall b: Board :: b.depth <= key(b)
    ensures forall b: Board :: b.cells == Goal ==> key(b) == b.depth
  {
    SignedManhattanBounds();
    EstimatesNonNegative();
    GoalScoresZero();
    if heuristic == 'm' then (b: Board) => b.depth + SignedManhattan(b.cells)
    else (b: Board) => b.depth + TileMismatch(b.cells)
  }

  /** On a permutation layout the abs-free sum is minus the blank's row plus
      column, so the 'm' key never exceeds the depth and never falls more
      than 4 below it: it does not measure the distance to the goal. */
  lemma SignedPriorityBounds(b: Board)
    requires IsTilePermutation(b.cells)
    ensures b.depth - 4 <= Priority('m')(b) <= b.depth
    ensures Priority('m')(b) == b.depth - (BlankIndex(b.cells) / 3 + BlankIndex(b.cells) % 3)
  {
    SignedManhattanIsBlankOffset(b.cells);
  }

  /** One move from the goal, with tile 1 to the right of the blank: the
      abs-free sum is -1 where the Manhattan distance is 1. */
  lemma SignedBelowManhattan()
    ensures Priority('m')(A.Left1) == 0 && A.Priority('m')(A.Left1) == 2
  {
    var c := A.Left1.cells;
    A.TestChildren();
    ChildIsPermutation(A.CreateTest(), Left);
    BlankAt(c, 1);
    SignedPriorityBounds(A.Left1);
    A.Left1Priority();
  }

  /** The search's variables at the head of its loop. */
  datatype Snapshot = Snapshot(current: Board, fringe: seq<Board>, nodesExpanded: int, maxFringeSize: int)

  /** What the search returns: the largest look-ahead size, the iteration
      count and the final state; or, in this model only, the report that
      the iteration budget ran out first. */
  datatype Outcome = Finished(maxFringeSize: int, nodesExpanded: int, final: Board) | OutOfFuel

  function Start(initialState: Board): Snapshot
  {
    Snapshot(initialState, [], 0, 0)
  }

  /** The first half of an iteration: one more iteration counted, the
      look-ahead's states pushed, and the largest look-ahead size updated
      from the size of this look-ahead, not of the fringe. */
  function Pushed(p: Snapshot, bfsDepth: int): (r: Snapshot)
    ensures r.current == p.current && r.nodesExpanded == p.nodesExpanded + 1
    ensures r.maxFringeSize >= p.maxFringeSize
    ensures |r.fringe| >= |p.fringe| + 2 && r.fringe[..|p.fringe|] == p.fringe
  {
    var temp := Lookahead(p.current, bfsDepth).found;
    LookaheadShape(p.current, bfsDepth);
    Snapshot(p.current, p.fringe + temp, p.nodesExpanded + 1,
             if |temp| > p.maxFringeSize then |temp| else p.maxFringeSize)
  }

  /** One iteration: the current state is not the goal, and the next current
      state is one of least priority in the pushed fringe, taken out of it. */
  ghost predicate Step(p: Snapshot, q: Snapshot, heuristic: char, bfsDepth: int)
    ensures Step(p, q, heuristic, bfsDepth) ==>
              var r := Pushed(p, bfsDepth);
              && !GoalTest(p.current)
              && q.current in r.fringe
              && |q.fringe| == |r.fringe| - 1
              && (forall x :: x in q.fringe ==> x in r.fringe)
              && q.nodesExpanded == p.nodesExpanded + 1
  {
    !GoalTest(p.current) &&
    var r := Pushed(p, bfsDepth);
    exists i :: IsMinimal(r.fringe, Priority(heuristic), i) &&
      q == r.(current := r.fringe[i], fringe := Remove(r.fringe, i))
  }

  ghost function StepOf(heuristic: char, bfsDepth: int): (Snapshot, Snapshot) -> bool
  {
    (p, q) => Step(p, q, heuristic, bfsDepth)
  }

  /** Each snapshot of `run` follows from the one before by a step. */
  ghost predicate Steps(run: seq<Snapshot>, heuristic: char, bfsDepth: int)
  {
    Chain(run, StepOf(heuristic, bfsDepth))
  }

  lemma StepAt(run: seq<Snapshot>, k: int, heuristic: char, bfsDepth: int)
    requires Steps(run, heuristic, bfsDepth) && 0 <= k < |run| - 1
    ensures Step(run[k], run[k + 1], heuristic, bfsDepth)
  {
    assert StepOf(heuristic, bfsDepth)(run[k], run[k + 1]);
  }

  /** `run` is a search from `initialState` that ends with `result` after
      at most `fuel` iterations: on the goal, or not yet on the goal when
      the budget is spent. */
  ghost predicate IsRun(initialState: Board, heuristic: char, bfsDepth: int, fuel: nat,
                        run: seq<Snapshot>, result: Outcome)
  {
    && 1 <= |run| <= fuel + 1 && run[0] == Start(initialState)
    && Steps(run, heuristic, bfsDepth)
    && var last := run[|run| - 1];
       if GoalTest(last.current) then result == Finished(last.maxFringeSize, last.nodesExpanded, last.current)
       else result == OutOfFuel && |run| == fuel + 1
  }

  /** The A* loop. Both heuristic branches of the source are one loop here,
      told apart by `heuristic`. The source loops until the goal test
      holds; here the loop also stops after `fuel` iterations. The fringe
      is never empty when its top is read: each look-ahead adds at least
      two states. */
  method ModifiedAStar(initialState: Board, heuristic: char, bfsDepth: int, fuel: nat)
    returns (result: Outcome, ghost run: seq<Snapshot>)
    ensures IsRun(initialState, heuristic, bfsDepth, fuel, run, result)
  {
    var maxFringeSize := 0;
    var nodesExpanded := 0;
    var fringe: seq<Board> := [];
    var S := initialState;
    run := [Start(initialState)];
    while !GoalTest(S)
      invariant |run| == nodesExpanded + 1 <= fuel + 1 && run[0] == Start(initialState)
      invariant Steps(run, heuristic, bfsDepth)
      invariant run[|run| - 1] == Snapshot(S, fringe, nodesExpanded, maxFringeSize)
      decreases fuel - nodesExpanded
    {
      if nodesExpanded == fuel {
        return OutOfFuel, run;
      }
      ghost var p := run[|run| - 1];
      nodesExpanded := nodesExpanded + 1;
      var temp := ModifiedExpand(S, bfsDepth);
      if |temp| > maxFringeSize {
        maxFringeSize := |temp|;
      }
      fringe := Append(fringe, temp);
      assert Snapshot(S, fringe, nodesExpanded, maxFringeSize) == Pushed(p, bfsDepth);
      var i;
      i, S, fringe := PopMin(fringe, Priority(heuristic));
      ghost var q := Snapshot(S, fringe, nodesExpanded, maxFringeSize);
      assert Step(p, q, heuristic, bfsDepth);
      ChainExtend(run, q, StepOf(heuristic, bfsDepth));
      run := run + [q];
    }
    result := Finished(maxFringeSize, nodesExpanded, S);
  }

  // ---------------------------------------------------------------------
  // What a run guarantees
  // ---------------------------------------------------------------------

  /** Along a run the iteration count is the number of iterations so far,
      and the fringe holds at least one state per iteration, so its top is
      never read on an empty fringe. */
  lemma {:induction false} RunCounts(initialState: Board, heuristic: char, bfsDepth: int,
                                     run: seq<Snapshot>, k: nat)
    requires |run| >= 1 && run[0] == Start(initialState) && Steps(run, heuristic, bfsDepth)
    requires k < |run|
    ensures run[k].nodesExpanded == k && |run[k].fringe| >= k
  {
    if k > 0 {
      RunCounts(initialState, heuristic, bfsDepth, run, k - 1);
      StepAt(run, k - 1, heuristic, bfsDepth);
      StepShape(run[k - 1], run[k], heuristic, bfsDepth);
      LookaheadShape(run[k - 1].current, bfsDepth);
    }
  }

  /** Along a run the largest look-ahead size is at least the size of
      every look-ahead so far. */
  lemma {:induction false} RunLargestBound(initialState: Board, heuristic: char, bfsDepth: int,
                                           run: seq<Snapshot>, k: nat)
    requires |run| >= 1 && run[0] == Start(initialState) && Steps(run, heuristic, bfsDepth)
    requires k < |run|
    ensures forall j :: 0 <= j < k ==> LookaheadSize(run[j], bfsDepth) <= run[k].maxFringeSize
  {
    if k > 0 {
      RunLargestBound(initialState, heuristic, bfsDepth, run, k - 1);
      StepAt(run, k - 1, heuristic, bfsDepth);
      StepMax(run[k - 1], run[k], heuristic, bfsDepth);
    }
  }

  /** Along a run the largest look-ahead size is 0 before the first
      look-ahead and afterwards the size of one of them. */
  lemma {:induction false} RunLargestAttained(initialState: Board, heuristic: char, bfsDepth: int,
                                              run: seq<Snapshot>, k: nat)
    requires |run| >= 1 && run[0] == Start(initialState) && Steps(run, heuristic, bfsDepth)
    requires k < |run|
    ensures k == 0 ==> run[k].maxFringeSize == 0
    ensures k > 0 ==> exists j :: 0 <= j < k && run[k].maxFringeSize == LookaheadSize(run[j], bfsDepth)
  {
    if k > 0 {
      RunLargestAttained(initialState, heuristic, bfsDepth, run, k - 1);
      StepAt(run, k - 1, heuristic, bfsDepth);
      StepMax(run[k - 1], run[k], heuristic, bfsDepth);
      if run[k].maxFringeSize != LookaheadSize(run[k - 1], bfsDepth) {
        var j :| 0 <= j < k - 1 && run[k - 1].maxFringeSize == LookaheadSize(run[j], bfsDepth);
      }
    }
  }

  /** The number of states the look-ahead from a snapshot's state finds. */
  ghost function LookaheadSize(p: Snapshot, bfsDepth: int): (n: nat)
    ensures n >= 2
  {
    LookaheadShape(p.current, bfsDepth);
    |Lookahead(p.current, bfsDepth).found|
  }

  /** A step keeps the largest look-ahead size up to date. */
  lemma StepMax(p: Snapshot, q: Snapshot, heuristic: char, bfsDepth: int)
    requires Step(p, q, heuristic, bfsDepth)
    ensures q.maxFringeSize == (if LookaheadSize(p, bfsDepth) > p.maxFringeSize
                                then LookaheadSize(p, bfsDepth) else p.maxFringeSize)
  {
    StepShape(p, q, heuristic, bfsDepth);
  }

  /** What a step leaves of the push: the counters as the push left them,
      and the fringe one state shorter. */
  lemma StepShape(p: Snapshot, q: Snapshot, heuristic: char, bfsDepth: int)
    requires Step(p, q, heuristic, bfsDepth)
    ensures var size := |Lookahead(p.current, bfsDepth).found|;
            && q.nodesExpanded == p.nodesExpanded + 1
            && q.maxFringeSize == (if size > p.maxFringeSize then size else p.maxFringeSize)
            && |q.fringe| == |p.fringe| + size - 1
  {
  }

  /** From a permutation layout every state the search stands on or holds
      in its fringe is a permutation layout. */
  lemma {:induction false} RunPermutations(initialState: Board, heuristic: char, bfsDepth: int,
                                           run: seq<Snapshot>, k: nat)
    requires IsTilePermutation(initialState.cells)
    requires |run| >= 1 && run[0] == Start(initialState) && Steps(run, heuristic, bfsDepth)
    requires k < |run|
    ensures IsTilePermutation(run[k].current.cells) && AllPermutations(run[k].fringe)
  {
    if k > 0 {
      RunPermutations(initialState, heuristic, bfsDepth, run, k - 1);
      StepAt(run, k - 1, heuristic, bfsDepth);
      var p := run[k - 1];
      var r := Pushed(p, bfsDepth);
      LookaheadDistinct(p.current, bfsDepth);
      AllPermutationsAppend(p.fringe, Lookahead(p.current, bfsDepth).found);
      var i :| IsMinimal(r.fringe, Priority(heuristic), i) &&
               run[k] == r.(current := r.fringe[i], fringe := Remove(r.fringe, i));
      A.RemoveKeepsPermutations(r.fringe, i);
    }
  }

  /** From a permutation layout the search never finishes: the goal test
      is never met, so every run uses up its whole iteration budget. */
  lemma NeverSolves(initialState: Board, heuristic: char, bfsDepth: int, fuel: nat,
                    run: seq<Snapshot>, result: Outcome)
    requires IsTilePermutation(initialState.cells)
    requires IsRun(initialState, heuristic, bfsDepth, fuel, run, result)
    ensures result == OutOfFuel && |run| == fuel + 1
  {
    var last := run[|run| - 1];
    RunPermutations(initialState, heuristic, bfsDepth, run, |run| - 1);
    GoalUnreachable(last.current.cells);
  }
}
